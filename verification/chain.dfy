/** What every write keeps, whatever the copy it writes was read from and whatever version the client sent. */
module RevisionChain {
  import opened Outcomes
  import opened StatusGraph
  import opened Decisions

  /** What a snapshot says of the row is true of it. */
  predicate Depicts(s: Snapshot, row: Decision) {
    match s
    case Full(_, code, business, status, version, preparedBy) =>
      code == row.code && business == row.business && status == row.status
      && version == row.version && preparedBy == row.preparedBy
    case SeedText(code, status, evidence) =>
      code == row.code && status == row.status && evidence == row.business.evidence
  }

  predicate Records(r: Revision, row: Decision) {
    && r.version == row.version && r.status == row.status
    && r.evidence == row.business.evidence && Depicts(r.snapshot, row)
  }

  /** Versions 1, 2, ... with no gap and no repeat. */
  ghost predicate Contiguous(h: seq<Revision>) {
    forall k :: 0 <= k < |h| ==> h[k].version == k + 1
  }

  /** Nobody decides a priority they prepared. */
  ghost predicate Separated(h: seq<Revision>, preparer: string) {
    forall k :: 0 <= k < |h| && h[k].status != DRAFT ==> h[k].actor != preparer
  }

  ghost predicate SoundRow(row: Decision, h: seq<Revision>) {
    && row.code != ""
    && 0 < |h| == row.version
    && Contiguous(h)
    && Records(h[|h| - 1], row)
    && h[0].status == DRAFT && h[0].actor == row.preparedBy
    && Separated(h, row.preparedBy)
  }

  ghost predicate DistinctCodes(rows: map<nat, Decision>) {
    forall i, j :: i in rows && j in rows && rows[i].code == rows[j].code ==> i == j
  }

  ghost predicate Sound(t: Tables) {
    && (forall id {:trigger History(t.revisions, id)} :: id in t.rows ==>
          SoundRow(t.rows[id], History(t.revisions, id)))
    && (forall r :: r in t.revisions ==> r.decisionId in t.rows)
    && DistinctCodes(t.rows)
  }

  // ---------- later tables extend earlier ones ----------

  predicate SameContent(a: Decision, b: Decision) {
    a == b.(deleted := a.deleted)
  }

  ghost predicate RowExtends(a: Decision, b: Decision) {
    && a.code == b.code && a.preparedBy == b.preparedBy
    && a.version <= b.version
    && (a.version == b.version ==> SameContent(a, b))
    && (a.deleted ==> a == b)
  }

  /** No row goes, no version falls, no revision changes, and a version fixes the content of its row. */
  ghost predicate Extends(t: Tables, u: Tables) {
    && t.revisions <= u.revisions
    && (forall id :: id in t.rows ==> id in u.rows && RowExtends(t.rows[id], u.rows[id]))
    && (forall id {:trigger History(u.revisions, id)} {:trigger History(t.revisions, id)} :: id in t.rows ==>
          && History(t.revisions, id) <= History(u.revisions, id)
          && (t.rows[id].deleted ==> History(t.revisions, id) == History(u.revisions, id)))
  }

  lemma ExtendsReflexive(t: Tables)
    ensures Extends(t, t)
  {
  }

  lemma ExtendsTransitive(t: Tables, u: Tables, v: Tables)
    requires Extends(t, u) && Extends(u, v)
    ensures Extends(t, v)
  {
    forall id | id in t.rows
      ensures id in v.rows && RowExtends(t.rows[id], v.rows[id])
      ensures History(t.revisions, id) <= History(v.revisions, id)
    {
      assert id in u.rows && RowExtends(t.rows[id], u.rows[id]);
    }
  }

  // ---------- histories ----------

  lemma HistoryOfAppend(revisions: seq<Revision>, r: Revision, id: nat)
    ensures History(revisions + [r], id) == History(revisions, id) + if r.decisionId == id then [r] else []
  {
    assert (revisions + [r])[..|revisions|] == revisions;
  }

  /** A history holds exactly the revisions of its decision. */
  lemma {:induction false} HistoryMembers(revisions: seq<Revision>, id: nat, r: Revision)
    ensures r in History(revisions, id) <==> r in revisions && r.decisionId == id
  {
    if revisions != [] {
      var last := |revisions| - 1;
      HistoryMembers(revisions[..last], id, r);
      assert revisions == revisions[..last] + [revisions[last]];
    }
  }

  /** In order of their versions: what the query asks of its answer. */
  ghost predicate Ordered(h: seq<Revision>) {
    forall i, j :: 0 <= i < j < |h| ==> h[i].version <= h[j].version
  }

  /** Each revision of the decision as often as it is stored. */
  ghost predicate IsRetrieval(revisions: seq<Revision>, id: nat, answer: seq<Revision>) {
    && Ordered(answer)
    && forall r :: multiset(answer)[r] == if r.decisionId == id then multiset(revisions)[r] else 0
  }

  lemma {:induction false} HistoryHoldsItsRevisions(revisions: seq<Revision>, id: nat, r: Revision)
    ensures multiset(History(revisions, id))[r] == if r.decisionId == id then multiset(revisions)[r] else 0
  {
    if revisions != [] {
      var last := |revisions| - 1;
      HistoryHoldsItsRevisions(revisions[..last], id, r);
      assert revisions == revisions[..last] + [revisions[last]];
    }
  }

  /** Ordered answers with the same distinct versions cannot differ. */
  lemma {:induction false} OrderedAnswersAgree(a: seq<Revision>, b: seq<Revision>)
    requires Ordered(a) && Contiguous(b) && multiset(a) == multiset(b)
    ensures a == b
    decreases |b|
  {
    assert |a| == |multiset(a)| == |multiset(b)| == |b|;
    if b != [] {
      var last := |b| - 1;
      LastIsGreatest(a, b);
      RestAgrees(a, b);
      OrderedAnswersAgree(a[..last], b[..last]);
    }
  }

  lemma RestAgrees<T>(a: seq<T>, b: seq<T>)
    requires |a| == |b| > 0 && multiset(a) == multiset(b) && a[|a| - 1] == b[|b| - 1]
    ensures multiset(a[..|a| - 1]) == multiset(b[..|b| - 1])
  {
    var last := |a| - 1;
    assert a == a[..last] + [a[last]] && b == b[..last] + [b[last]];
    assert multiset(a[..last]) == multiset(a) - multiset{a[last]};
    assert multiset(b[..last]) == multiset(b) - multiset{b[last]};
  }

  lemma LastIsGreatest(a: seq<Revision>, b: seq<Revision>)
    requires Ordered(a) && Contiguous(b) && multiset(a) == multiset(b) && |a| == |b| > 0
    ensures a[|a| - 1] == b[|b| - 1]
  {
    var last := |b| - 1;
    assert b[last] in multiset(a) && a[last] in multiset(b);
    var i :| 0 <= i < |a| && a[i] == b[last];
    var j :| 0 <= j < |b| && b[j] == a[last];
    assert a[i].version <= a[last].version;
  }

  /**
   A query for the revisions of a decision by ascending version has one possible answer over sound tables,
   and that is the history.
   */
  lemma HistoryIsTheRetrieval(t: Tables, id: nat, answer: seq<Revision>)
    requires Sound(t)
    ensures IsRetrieval(t.revisions, id, answer) <==> answer == History(t.revisions, id)
  {
    hide History, Ordered, DistinctCodes, Records, Separated;
    var h := History(t.revisions, id);
    forall r: Revision
      ensures multiset(h)[r] == if r.decisionId == id then multiset(t.revisions)[r] else 0
    {
      HistoryHoldsItsRevisions(t.revisions, id, r);
    }
    HistoryIsOrdered(t, id);
    if IsRetrieval(t.revisions, id, answer) {
      assert multiset(answer) == multiset(h);
      OrderedAnswersAgree(answer, h);
    }
  }

  lemma HistoryIsOrdered(t: Tables, id: nat)
    requires Sound(t)
    ensures Contiguous(History(t.revisions, id)) && Ordered(History(t.revisions, id))
  {
    if id !in t.rows {
      NoStrayHistory(t, id);
    }
  }

  // ---------- what a request may hold ----------

  /** The copy in a request's hands: its guards passed on it, and the row has only moved on since. */
  ghost predicate CopyOk(t: Tables, call: Call, copy: Decision) {
    if call.Create? then copy == NewDraft(call) && ValidFields(call.code, call.business)
    else
      && call.id in t.rows
      && RowExtends(copy, t.rows[call.id])
      && !copy.deleted
      && Objection(copy, call) == None
  }

  lemma PreparedCopyIsOk(t: Tables, call: Call)
    requires Prepare(t, call).Success?
    ensures CopyOk(t, call, Prepare(t, call).value)
  {
  }

  lemma CopyStaysOk(t: Tables, u: Tables, call: Call, copy: Decision)
    requires CopyOk(t, call, copy) && Extends(t, u)
    ensures CopyOk(u, call, copy)
  {
    if !call.Create? {
      assert RowExtends(t.rows[call.id], u.rows[call.id]);
    }
  }

  // ---------- the writes ----------

  /** No revision of a sound decision already carries the version after its last. */
  lemma NextVersionIsFree(t: Tables, id: nat, r: Revision)
    requires Sound(t) && id in t.rows
    requires r.decisionId == id && r.version == t.rows[id].version + 1
    ensures IndexFree(t.revisions, r)
  {
    forall q | q in t.revisions && q.decisionId == id
      ensures q.version != r.version
    {
      HistoryMembers(t.revisions, id, q);
      var h := History(t.revisions, id);
      var k :| 0 <= k < |h| && h[k] == q;
    }
  }

  /**
   An edit is written exactly when the row is live at the version the client sent; the index never refuses it. It
   replaces the business fields and the status by those of the copy, as the call changed them, and the version.
   */
  lemma EditIsWrittenExactlyWhen(t: Tables, call: Call, copy: Decision, newId: nat)
    requires Sound(t) && call.Edits()
    ensures Write(t, call, copy, newId).Success?
            <==> call.id in t.rows && !t.rows[call.id].deleted && t.rows[call.id].version == call.expected
    ensures Write(t, call, copy, newId).Failure? ==> Write(t, call, copy, newId).error == VersionConflict
    ensures Write(t, call, copy, newId).Success? ==>
              var row := t.rows[call.id];
              var business := if call.Update? then call.business else copy.business;
              var status := if call.Update? then copy.status else call.target;
              Write(t, call, copy, newId).value
              == Tables(t.rows[call.id := Decision(row.code, business, status, call.expected + 1, row.preparedBy,
                                                   false)],
                        t.revisions + [RevisionOf(call, copy, newId)])
  {
    if Live(t, call.id) && t.rows[call.id].version == call.expected {
      NextVersionIsFree(t, call.id, RevisionOf(call, copy, newId));
    }
  }

  /** A creation is written exactly when no row, live or deleted, holds its code. */
  lemma CreateIsWrittenExactlyWhen(t: Tables, call: Call, copy: Decision, newId: nat)
    requires Sound(t) && call.Create? && newId !in t.rows
    ensures Write(t, call, copy, newId)
            == if exists id :: id in t.rows && t.rows[id].code == copy.code then Failure(DuplicateKey)
               else Success(Tables(t.rows[newId := copy], t.revisions + [RevisionOf(call, copy, newId)]))
  {
    var r := RevisionOf(call, copy, newId);
    forall q | q in t.revisions
      ensures q.decisionId != r.decisionId
    {
    }
  }

  /** A deletion is written exactly when the row is live, in whatever status; it marks the row and nothing else. */
  lemma DeleteIsWrittenExactlyWhen(t: Tables, call: Call, copy: Decision, newId: nat)
    requires call.Delete?
    ensures Write(t, call, copy, newId)
            == if call.id in t.rows && !t.rows[call.id].deleted then
                 var row := t.rows[call.id];
                 Success(Tables(t.rows[call.id := Decision(row.code, row.business, row.status, row.version,
                                                           row.preparedBy, true)], t.revisions))
               else Failure(NotFound)
  {
  }

  /** Changing one row, soundly, keeps every other row sound. */
  lemma OneRowMoved(t: Tables, u: Tables, id: nat)
    requires Sound(t) && id in u.rows && t.revisions <= u.revisions
    requires u.rows == t.rows[id := u.rows[id]]
    requires forall j :: j in t.rows && j != id ==> History(u.revisions, j) == History(t.revisions, j)
    requires forall r :: r in u.revisions ==> r in t.revisions || r.decisionId == id
    requires SoundRow(u.rows[id], History(u.revisions, id))
    requires id in t.rows ==> RowExtends(t.rows[id], u.rows[id]) && !t.rows[id].deleted
    requires id in t.rows ==> History(t.revisions, id) <= History(u.revisions, id)
    requires id !in t.rows ==> CodeFree(t.rows, u.rows[id].code)
    ensures Sound(u) && Extends(t, u)
  {
    forall j | j in u.rows
      ensures SoundRow(u.rows[j], History(u.revisions, j))
    {
      if j != id {
        assert j in t.rows && u.rows[j] == t.rows[j];
        assert SoundRow(t.rows[j], History(t.revisions, j));
        assert History(u.revisions, j) == History(t.revisions, j);
      }
    }
    assert DistinctCodes(u.rows) by { CodesStayDistinct(t.rows, u.rows, id); }
    assert Sound(u);
    forall j | j in t.rows
      ensures j in u.rows && RowExtends(t.rows[j], u.rows[j])
      ensures History(t.revisions, j) <= History(u.revisions, j)
      ensures t.rows[j].deleted ==> History(t.revisions, j) == History(u.revisions, j)
    {
      if j != id {
        assert u.rows[j] == t.rows[j];
        assert History(u.revisions, j) == History(t.revisions, j);
      }
    }
  }

  lemma CodesStayDistinct(rows: map<nat, Decision>, rows': map<nat, Decision>, id: nat)
    requires DistinctCodes(rows) && id in rows' && rows' == rows[id := rows'[id]]
    requires if id in rows then rows[id].code == rows'[id].code else CodeFree(rows, rows'[id].code)
    ensures DistinctCodes(rows')
  {
    forall i, j | i in rows' && j in rows' && rows'[i].code == rows'[j].code
      ensures i == j
    {
      assert i != id ==> rows'[i] == rows[i];
      assert j != id ==> rows'[j] == rows[j];
    }
  }

  lemma HistoriesOfOthers(revisions: seq<Revision>, r: Revision)
    ensures forall j :: j != r.decisionId ==> History(revisions + [r], j) == History(revisions, j)
  {
    forall j: nat | j != r.decisionId
      ensures History(revisions + [r], j) == History(revisions, j)
    {
      HistoryOfAppend(revisions, r, j);
    }
  }

  /** Every write, by any call from any copy, keeps the tables sound and only extends them. */
  lemma WriteKeepsSound(t: Tables, call: Call, copy: Decision, newId: nat)
    requires Sound(t) && CopyOk(t, call, copy)
    requires call.Create? ==> newId !in t.rows
    requires Write(t, call, copy, newId).Success?
    ensures Sound(Write(t, call, copy, newId).value)
    ensures Extends(t, Write(t, call, copy, newId).value)
  {
    hide Sound, Extends, CopyOk, InsertWithRevision, UpdateWithRevision, SoftDelete;
    match call
    case Create(_, _, _, _) => CreateKeepsSound(t, call, copy, newId);
    case Delete(id, _, _) => DeleteKeepsSound(t, id);
    case _ => EditKeepsSound(t, call, copy, newId);
  }

  lemma DeletedRowIsSound(row: Decision, h: seq<Revision>)
    requires SoundRow(row, h)
    ensures SoundRow(row.(deleted := true), h)
  {
  }

  lemma DeleteKeepsSound(t: Tables, id: nat)
    requires Sound(t) && SoftDelete(t, id).Success?
    ensures Sound(SoftDelete(t, id).value) && Extends(t, SoftDelete(t, id).value)
  {
    hide SoundRow, DistinctCodes, History;
    DeletedRowIsSound(t.rows[id], History(t.revisions, id));
    OneRowMoved(t, SoftDelete(t, id).value, id);
  }

  lemma CreateKeepsSound(t: Tables, call: Call, copy: Decision, newId: nat)
    requires Sound(t) && CopyOk(t, call, copy) && call.Create? && newId !in t.rows
    requires Write(t, call, copy, newId).Success?
    ensures Sound(Write(t, call, copy, newId).value)
    ensures Extends(t, Write(t, call, copy, newId).value)
  {
    assert call.code != "";
    hide SoundRow, History, DistinctCodes, CodeFree, ValidFields;
    var u := Write(t, call, copy, newId).value;
    var r := RevisionOf(call, copy, newId);
    NoStrayHistory(t, newId);
    HistoryOfAppend(t.revisions, r, newId);
    HistoriesOfOthers(t.revisions, r);
    FirstRowIsSound(call, newId);
    assert History(u.revisions, newId) == [r];
    OneRowMoved(t, u, newId);
  }

  lemma FirstRowIsSound(call: Call, newId: nat)
    requires call.Create? && call.code != ""
    ensures SoundRow(NewDraft(call), [RevisionOf(call, NewDraft(call), newId)])
  {
  }

  lemma NoStrayHistory(t: Tables, id: nat)
    requires Sound(t) && id !in t.rows
    ensures History(t.revisions, id) == []
  {
    var h := History(t.revisions, id);
    if h != [] {
      HistoryMembers(t.revisions, id, h[0]);
      assert false;
    }
  }

  lemma EditKeepsSound(t: Tables, call: Call, copy: Decision, newId: nat)
    requires Sound(t) && CopyOk(t, call, copy) && call.Edits()
    requires Write(t, call, copy, newId).Success?
    ensures Sound(Write(t, call, copy, newId).value)
    ensures Extends(t, Write(t, call, copy, newId).value)
  {
    var u := Write(t, call, copy, newId).value;
    var r := RevisionOf(call, copy, newId);
    HistoryOfAppend(t.revisions, r, call.id);
    HistoriesOfOthers(t.revisions, r);
    EditedRowIsSound(t.rows[call.id], History(t.revisions, call.id), call, copy, r, u.rows[call.id]);
    OneRowMoved(t, u, call.id);
  }

  /** The new revision is made from the same copy as the new row, so it can only agree with it. */
  lemma EditedRowIsSound(row: Decision, h: seq<Revision>, call: Call, copy: Decision, r: Revision, row': Decision)
    requires SoundRow(row, h) && call.Edits() && RowExtends(copy, row) && Objection(copy, call) == None
    requires row.version == call.expected && r == RevisionOf(call, copy, 0)
    requires row' == row.(business := Edited(copy, call).business, status := Edited(copy, call).status,
                          version := Edited(copy, call).version)
    ensures SoundRow(row', h + [r])
  {
    DecisionEdges(copy.status, if call.Transition? then call.target else DRAFT);
    assert r.status != DRAFT ==> r.actor != row.preparedBy;
  }
}
