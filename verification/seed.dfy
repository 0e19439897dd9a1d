/** The demonstration decisions a fresh database starts with. */
module Seeding {
  import opened Decisions
  import opened RevisionChain
  import opened ObservedVersions
  import opened DecisionService

  const OPERATOR := "operator"

  /** A seeded row is a first draft, or a second version, decided by the review account. */
  predicate IsSeed(row: Decision) {
    row.code != "" && row.preparedBy == OPERATOR && !row.deleted
    && row.version == if row.status == DRAFT then 1 else 2
  }

  function Items(business: seq<Business>): (items: seq<Decision>)
    requires |business| == 3
    ensures |items| == 3
    ensures forall i :: 0 <= i < 3 ==> IsSeed(items[i])
    ensures forall i, j :: 0 <= i < j < 3 ==> items[i].code != items[j].code
  {
    assert "PD-001"[5] == '1' && "PD-002"[5] == '2' && "PD-003"[5] == '3';
    [Decision("PD-001", business[0], DRAFT, 1, OPERATOR, false),
     Decision("PD-002", business[1], "observe", 2, OPERATOR, false),
     Decision("PD-003", business[2], "restrict", 2, OPERATOR, false)]
  }

  /** Seeded revisions carry a reduced text in place of the whole row. */
  function SeedRevisions(id: nat, row: Decision): (revisions: seq<Revision>)
    ensures forall r :: r in revisions ==> r.decisionId == id
  {
    var evidence := row.business.evidence;
    var draft := Revision(id, 1, DRAFT, evidence, "seeded decision draft", OPERATOR,
                          "seed-" + row.code + "-create", SeedText(row.code, DRAFT, evidence));
    if row.status == DRAFT then [draft]
    else [draft, Revision(id, row.version, row.status, evidence, "seeded independent review", "reviewer",
                          "seed-" + row.code + "-review", SeedText(row.code, row.status, evidence))]
  }

  function WithSeed(t: Tables, id: nat, row: Decision): Tables {
    Tables(t.rows[id := row], t.revisions + SeedRevisions(id, row))
  }

  function WithSeeds(t: Tables, firstId: nat, items: seq<Decision>): Tables {
    if items == [] then t
    else
      var last := |items| - 1;
      WithSeed(WithSeeds(t, firstId, items[..last]), firstId + last, items[last])
  }

  predicate AnyLive(rows: map<nat, Decision>) {
    exists id | id in rows :: !rows[id].deleted
  }

  lemma SeedHistories(revisions: seq<Revision>, id: nat, row: Decision, j: nat)
    ensures History(revisions + SeedRevisions(id, row), j)
            == History(revisions, j) + if j == id then SeedRevisions(id, row) else []
  {
    var s := SeedRevisions(id, row);
    HistoryOfAppend(revisions, s[0], j);
    if |s| == 2 {
      HistoryOfAppend(revisions + [s[0]], s[1], j);
      assert revisions + s == revisions + [s[0]] + [s[1]];
    }
  }

  lemma SeedKeepsSound(t: Tables, id: nat, row: Decision)
    requires Sound(t) && WellShaped(t) && id !in t.rows && IsSeed(row) && CodeFree(t.rows, row.code)
    ensures Sound(WithSeed(t, id, row)) && WellShaped(WithSeed(t, id, row)) && Extends(t, WithSeed(t, id, row))
  {
    hide SeedRevisions, SoundRow, DecidedOnce, History, DistinctCodes, CodeFree;
    var u := WithSeed(t, id, row);
    NoStrayHistory(t, id);
    forall j: nat
      ensures History(u.revisions, j) == if j == id then SeedRevisions(id, row) else History(t.revisions, j)
    {
      SeedHistories(t.revisions, id, row, j);
    }
    SeedRowIsSound(id, row);
    assert Sound(u) && Extends(t, u) by { OneRowMoved(t, u, id); }
  }

  lemma SeedRowIsSound(id: nat, row: Decision)
    requires IsSeed(row)
    ensures SoundRow(row, SeedRevisions(id, row)) && DecidedOnce(SeedRevisions(id, row))
  {
    assert |OPERATOR| == |"reviewer"| && OPERATOR[0] == 'o' && "reviewer"[0] == 'r';
  }

  lemma {:induction false} SeedsKeepSound(t: Tables, firstId: nat, items: seq<Decision>)
    requires Sound(t) && WellShaped(t)
    requires forall id :: id in t.rows ==> id < firstId
    requires forall i :: 0 <= i < |items| ==> IsSeed(items[i]) && CodeFree(t.rows, items[i].code)
    requires forall i, j :: 0 <= i < j < |items| ==> items[i].code != items[j].code
    ensures var u := WithSeeds(t, firstId, items);
            Sound(u) && WellShaped(u) && Extends(t, u)
  {
    hide Sound, WellShaped, Extends, CodeFree, WithSeed;
    if items == [] {
      ExtendsReflexive(t);
    } else {
      var last := |items| - 1;
      var u := WithSeeds(t, firstId, items[..last]);
      SeedsKeepSound(t, firstId, items[..last]);
      SeedsTakeTheirOwnKeys(t, firstId, items[..last], items[last].code);
      SeedKeepsSound(u, firstId + last, items[last]);
      ExtendsTransitive(t, u, WithSeeds(t, firstId, items));
    }
  }

  /** Runs can start over empty tables and over freshly seeded ones. */
  lemma FreshTablesAreSound(business: seq<Business>)
    requires |business| == 3
    ensures var empty := Tables(map[], []);
            && Sound(empty) && WellShaped(empty)
            && Sound(WithSeeds(empty, 1, Items(business))) && WellShaped(WithSeeds(empty, 1, Items(business)))
  {
    hide SoundRow, DecidedOnce, SeedRevisions, History;
    SeedsKeepSound(Tables(map[], []), 1, Items(business));
  }

  /** What a fresh database holds: a draft, and two priorities with their decision by the review account. */
  lemma FreshTablesHold(business: seq<Business>)
    requires |business| == 3
    ensures var a, b, c := business[0], business[1], business[2];
            WithSeeds(Tables(map[], []), 1, Items(business)) == Tables(
              map[1 := Decision("PD-001", a, "draft", 1, "operator", false),
                  2 := Decision("PD-002", b, "observe", 2, "operator", false),
                  3 := Decision("PD-003", c, "restrict", 2, "operator", false)],
              [Revision(1, 1, "draft", a.evidence, "seeded decision draft", "operator", "seed-" + "PD-001" + "-create",
                        SeedText("PD-001", "draft", a.evidence)),
               Revision(2, 1, "draft", b.evidence, "seeded decision draft", "operator", "seed-" + "PD-002" + "-create",
                        SeedText("PD-002", "draft", b.evidence)),
               Revision(2, 2, "observe", b.evidence, "seeded independent review", "reviewer",
                        "seed-" + "PD-002" + "-review",
                        SeedText("PD-002", "observe", b.evidence)),
               Revision(3, 1, "draft", c.evidence, "seeded decision draft", "operator", "seed-" + "PD-003" + "-create",
                        SeedText("PD-003", "draft", c.evidence)),
               Revision(3, 2, "restrict", c.evidence, "seeded independent review", "reviewer",
                        "seed-" + "PD-003" + "-review",
                        SeedText("PD-003", "restrict", c.evidence))])
  {
    hide SeedRevisions, WithSeeds;
    var items, empty := Items(business), Tables(map[], []);
    OneByOne(empty, items);
    assert |"draft"| == 5 && |"observe"| == 7 && |"restrict"| == 8;
    FirstDraftOnly(1, items[0]);
    DraftAndReview(2, items[1]);
    DraftAndReview(3, items[2]);
  }

  lemma OneByOne(t: Tables, items: seq<Decision>)
    requires |items| == 3
    ensures WithSeeds(t, 1, items) == WithSeed(WithSeed(WithSeed(t, 1, items[0]), 2, items[1]), 3, items[2])
  {
    hide WithSeed;
    assert items[..1] == [items[0]] && items[..2] == [items[0], items[1]] && items[..3] == items;
    assert items[..1][..0] == [] && items[..2][..1] == items[..1] && items[..3][..2] == items[..2];
    assert WithSeeds(t, 1, items[..1]) == WithSeed(t, 1, items[0]);
    assert WithSeeds(t, 1, items[..2]) == WithSeed(WithSeed(t, 1, items[0]), 2, items[1]);
  }

  lemma FirstDraftOnly(id: nat, row: Decision)
    requires row.status == "draft"
    ensures SeedRevisions(id, row)
            == [Revision(id, 1, "draft", row.business.evidence, "seeded decision draft", "operator",
                         "seed-" + row.code + "-create", SeedText(row.code, "draft", row.business.evidence))]
  {
  }

  lemma DraftAndReview(id: nat, row: Decision)
    requires row.status != "draft"
    ensures SeedRevisions(id, row)
            == [Revision(id, 1, "draft", row.business.evidence, "seeded decision draft", "operator",
                         "seed-" + row.code + "-create", SeedText(row.code, "draft", row.business.evidence)),
                Revision(id, row.version, row.status, row.business.evidence, "seeded independent review", "reviewer",
                         "seed-" + row.code + "-review", SeedText(row.code, row.status, row.business.evidence))]
  {
  }

  /** Seeding takes only the ids and the codes of its items. */
  lemma {:induction false} SeedsTakeTheirOwnKeys(t: Tables, firstId: nat, items: seq<Decision>, code: string)
    requires forall id :: id in t.rows ==> id < firstId
    requires forall i :: 0 <= i < |items| ==> items[i].code != code
    ensures forall id :: id in WithSeeds(t, firstId, items).rows ==> id < firstId + |items|
    ensures CodeFree(WithSeeds(t, firstId, items).rows, code) <==> CodeFree(t.rows, code)
  {
    hide CodeFree, SeedRevisions;
    if items != [] {
      var last := |items| - 1;
      var u := WithSeeds(t, firstId, items[..last]);
      SeedsTakeTheirOwnKeys(t, firstId, items[..last], code);
      CodeFreeOneMore(u.rows, firstId + last, items[last], code);
    }
  }

  lemma CodeFreeOneMore(rows: map<nat, Decision>, id: nat, row: Decision, code: string)
    requires id !in rows
    ensures CodeFree(rows[id := row], code) <==> CodeFree(rows, code) && row.code != code
  {
    var rows' := rows[id := row];
    assert forall j :: j in rows ==> rows'[j] == rows[j];
    assert rows'[id] == row;
  }

  /**
   Seeding leaves a table with a live row alone. Otherwise it inserts the three decisions, unless one of
   their codes is still held by a deleted row: then it inserts nothing and reports failure.
   */
  method SeedPriorityDecisions(repository: PriorityDecisionRepository, business: seq<Business>) returns (ok: bool)
    requires repository.Valid() && |business| == 3 && Sound(repository.View())
    modifies repository
    ensures repository.Valid()
    ensures ok <==> (exists id :: id in old(repository.rows) && !old(repository.rows)[id].deleted)
                    || forall i :: 0 <= i < 3 ==> CodeFree(old(repository.rows), Items(business)[i].code)
    ensures repository.View() ==
            if ok && !old(AnyLive(repository.rows))
            then WithSeeds(old(repository.View()), old(repository.lastId) + 1, Items(business))
            else old(repository.View())
    ensures old(WellShaped(repository.View())) ==> Sound(repository.View()) && WellShaped(repository.View())
  {
    hide Sound, WellShaped, WithSeed, SeedRevisions, CodeFree;
    if AnyLive(repository.rows) {
      return true;
    }
    var items := Items(business);
    var rows, revisions := repository.rows, repository.revisions;
    ghost var t, firstId := repository.View(), repository.lastId + 1;
    for i := 0 to 3
      invariant repository.Valid() && repository.lastId + 1 == firstId + i
      invariant repository.View() == WithSeeds(t, firstId, items[..i])
      invariant forall j :: 0 <= j < i ==> CodeFree(t.rows, items[j].code)
    {
      SeedsTakeTheirOwnKeys(t, firstId, items[..i], items[i].code);
      if !CodeFree(repository.rows, items[i].code) {
        repository.rows, repository.revisions := rows, revisions;
        return false;
      }
      assert items[..i + 1][..i] == items[..i];
      InsertSeed(repository, items[i]);
    }
    assert items[..3] == items;
    if WellShaped(t) {
      SeedsKeepSound(t, firstId, items);
    }
    ok := true;
  }

  method InsertSeed(repository: PriorityDecisionRepository, item: Decision)
    requires repository.Valid()
    modifies repository
    ensures repository.Valid() && repository.lastId == old(repository.lastId) + 1
    ensures repository.View() == WithSeed(old(repository.View()), repository.lastId, item)
  {
    repository.lastId := repository.lastId + 1;
    repository.rows := repository.rows[repository.lastId := item];
    repository.revisions := repository.revisions + SeedRevisions(repository.lastId, item);
  }
}
