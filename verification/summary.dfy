/** The audit summary: five queries over a log that other requests keep appending to. */
module AuditSummaries {

  datatype Entry = Entry(actor: string, action: string, entityType: string, createdAt: int)

  datatype Group = Group(name: string, count: nat)

  datatype Summary = Summary(
    total: nat, transitions: nat, uniqueActors: nat, actions: seq<Group>, entityTypes: seq<Group>)

  /** How many entries carry the name. */
  function Occurrences(names: seq<string>, name: string): nat {
    if names == [] then 0
    else Occurrences(names[..|names| - 1], name) + if names[|names| - 1] == name then 1 else 0
  }

  function Actions(log: seq<Entry>): (column: seq<string>)
    ensures |column| == |log| && forall i :: 0 <= i < |log| ==> column[i] == log[i].action
  {
    seq(|log|, i requires 0 <= i < |log| => log[i].action)
  }

  function EntityTypes(log: seq<Entry>): (column: seq<string>)
    ensures |column| == |log| && forall i :: 0 <= i < |log| ==> column[i] == log[i].entityType
  {
    seq(|log|, i requires 0 <= i < |log| => log[i].entityType)
  }

  function Actors(log: seq<Entry>): (column: seq<string>)
    ensures |column| == |log| && forall i :: 0 <= i < |log| ==> column[i] == log[i].actor
  {
    seq(|log|, i requires 0 <= i < |log| => log[i].actor)
  }

  /** What a column holds for the entries made at the start of the window or later. */
  function InWindow(log: seq<Entry>, column: seq<string>, since: int): seq<string>
    requires |column| == |log|
  {
    if log == [] then []
    else
      var last := |log| - 1;
      InWindow(log[..last], column[..last], since) + if since <= log[last].createdAt then [column[last]] else []
  }

  // ---------- grouping ----------

  function Added(groups: seq<Group>, name: string): seq<Group> {
    if groups == [] then [Group(name, 1)]
    else if groups[0].name == name then [Group(name, groups[0].count + 1)] + groups[1..]
    else [groups[0]] + Added(groups[1..], name)
  }

  function GroupBy(names: seq<string>): seq<Group> {
    if names == [] then [] else Added(GroupBy(names[..|names| - 1]), names[|names| - 1])
  }

  function Sum(groups: seq<Group>): nat {
    if groups == [] then 0 else groups[0].count + Sum(groups[1..])
  }

  /** All that is shown for a name. */
  function CountOf(groups: seq<Group>, name: string): nat {
    if groups == [] then 0
    else CountOf(groups[1..], name) + if groups[0].name == name then groups[0].count else 0
  }

  /** How often a name is shown. */
  function Entries(groups: seq<Group>, name: string): nat {
    if groups == [] then 0 else Entries(groups[1..], name) + if groups[0].name == name then 1 else 0
  }

  lemma {:induction false} AddedCountsOneMore(groups: seq<Group>, name: string, other: string)
    ensures Sum(Added(groups, name)) == Sum(groups) + 1
    ensures CountOf(Added(groups, name), other) == CountOf(groups, other) + if other == name then 1 else 0
    ensures Entries(Added(groups, name), other)
            == if other == name && Entries(groups, other) == 0 then 1 else Entries(groups, other)
  {
    if groups != [] {
      AddedCountsOneMore(groups[1..], name, other);
    }
  }

  // ---------- the order of the groups ----------

  ghost predicate Descending(groups: seq<Group>) {
    forall i, j :: 0 <= i < j < |groups| ==> groups[j].count <= groups[i].count
  }

  function Inserted(groups: seq<Group>, g: Group): seq<Group> {
    if groups == [] || groups[0].count <= g.count then [g] + groups
    else [groups[0]] + Inserted(groups[1..], g)
  }

  /** Largest counts first. */
  function Ranked(groups: seq<Group>): seq<Group> {
    if groups == [] then [] else Inserted(Ranked(groups[1..]), groups[0])
  }

  lemma {:induction false} InsertedStaysDescending(groups: seq<Group>, g: Group)
    requires Descending(groups)
    ensures Descending(Inserted(groups, g))
    ensures forall h :: h in Inserted(groups, g) <==> h == g || h in groups
  {
    if groups != [] && g.count < groups[0].count {
      InsertedStaysDescending(groups[1..], g);
      assert groups == [groups[0]] + groups[1..];
      var rest := Inserted(groups[1..], g);
      forall i | 0 <= i < |rest|
        ensures rest[i].count <= groups[0].count
      {
        assert rest[i] in rest;
      }
    }
  }

  lemma {:induction false} InsertedCountsIn(groups: seq<Group>, g: Group, name: string)
    ensures Sum(Inserted(groups, g)) == Sum(groups) + g.count
    ensures CountOf(Inserted(groups, g), name) == CountOf(groups, name) + if g.name == name then g.count else 0
    ensures Entries(Inserted(groups, g), name) == Entries(groups, name) + if g.name == name then 1 else 0
  {
    if groups != [] {
      InsertedCountsIn(groups[1..], g, name);
    }
  }

  lemma {:induction false} RankingOnlyReorders(groups: seq<Group>, name: string)
    ensures Descending(Ranked(groups))
    ensures Sum(Ranked(groups)) == Sum(groups)
    ensures CountOf(Ranked(groups), name) == CountOf(groups, name)
    ensures Entries(Ranked(groups), name) == Entries(groups, name)
  {
    hide Descending;
    if groups != [] {
      RankingOnlyReorders(groups[1..], name);
      InsertedStaysDescending(Ranked(groups[1..]), groups[0]);
      InsertedCountsIn(Ranked(groups[1..]), groups[0], name);
    } else {
      assert Descending([]) by { NoGroupsDescend(); }
    }
  }

  lemma NoGroupsDescend()
    ensures Descending([])
  {
  }

  /** Each name that occurs is shown once, with its exact count, largest counts first; the counts add up to all. */
  ghost predicate Groups(names: seq<string>, groups: seq<Group>) {
    && Descending(groups)
    && Sum(groups) == |names|
    && (forall name :: CountOf(groups, name) == Occurrences(names, name))
    && (forall name :: Entries(groups, name) == if 0 < Occurrences(names, name) then 1 else 0)
  }

  lemma {:induction false} GroupsCountNames(names: seq<string>, name: string)
    ensures Sum(GroupBy(names)) == |names|
    ensures CountOf(GroupBy(names), name) == Occurrences(names, name)
    ensures Entries(GroupBy(names), name) == if 0 < Occurrences(names, name) then 1 else 0
  {
    if names != [] {
      var last := |names| - 1;
      GroupsCountNames(names[..last], name);
      AddedCountsOneMore(GroupBy(names[..last]), names[last], name);
    }
  }

  /** Grouping and then ranking the names gives what the query asks for. */
  lemma GroupsAreExact(names: seq<string>)
    ensures Groups(names, Ranked(GroupBy(names)))
  {
    hide Descending, Sum, CountOf, Entries, Occurrences, GroupBy, Ranked;
    var groups := Ranked(GroupBy(names));
    RankingOnlyReorders(GroupBy(names), "");
    GroupsCountNames(names, "");
    forall name
      ensures CountOf(groups, name) == Occurrences(names, name)
      ensures Entries(groups, name) == if 0 < Occurrences(names, name) then 1 else 0
    {
      RankingOnlyReorders(GroupBy(names), name);
      GroupsCountNames(names, name);
    }
  }

  // ---------- the groups against the log ----------

  /** The places of the log that lie in the window. */
  ghost function Window(log: seq<Entry>, since: int): set<int> {
    set i | 0 <= i < |log| && since <= log[i].createdAt
  }

  /** The places of the window at which the column holds the name. */
  ghost function Places(log: seq<Entry>, column: seq<string>, since: int, name: string): set<int>
    requires |column| == |log|
  {
    set i | 0 <= i < |log| && since <= log[i].createdAt && column[i] == name
  }

  lemma WindowOneMore(log: seq<Entry>, since: int)
    requires log != []
    ensures var last := |log| - 1;
            Window(log, since) == Window(log[..last], since) + if since <= log[last].createdAt then {last} else {}
    ensures |log| - 1 !in Window(log[..|log| - 1], since)
  {
  }

  lemma PlacesOneMore(log: seq<Entry>, column: seq<string>, since: int, name: string)
    requires |column| == |log| && log != []
    ensures var last := |log| - 1;
            && Places(log, column, since, name)
               == Places(log[..last], column[..last], since, name)
                  + (if since <= log[last].createdAt && column[last] == name then {last} else {})
            && last !in Places(log[..last], column[..last], since, name)
  {
  }

  /** Each entry of the window counts once, under the name its column holds. */
  lemma {:induction false} WindowCounts(log: seq<Entry>, column: seq<string>, since: int, name: string)
    requires |column| == |log|
    ensures |InWindow(log, column, since)| == |Window(log, since)|
    ensures Occurrences(InWindow(log, column, since), name) == |Places(log, column, since, name)|
  {
    hide Window, Places, Occurrences;
    if log == [] {
      NothingInTheWindow(since, name);
    } else {
      var last := |log| - 1;
      WindowCounts(log[..last], column[..last], since, name);
      WindowOneMore(log, since);
      PlacesOneMore(log, column, since, name);
      OccurrencesOneMore(InWindow(log[..last], column[..last], since), column[last], name);
      assert InWindow(log[..last], column[..last], since) + [] == InWindow(log[..last], column[..last], since);
    }
  }

  lemma NothingInTheWindow(since: int, name: string)
    ensures Window([], since) == {} && Places([], [], since, name) == {} && Occurrences([], name) == 0
  {
  }

  lemma OccurrencesOneMore(names: seq<string>, more: string, name: string)
    ensures Occurrences(names + [more], name) == Occurrences(names, name) + if more == name then 1 else 0
  {
    assert (names + [more])[..|names|] == names;
  }

  /**
   The answer to a grouping query: each name in the window once, largest counts first, and its count is the number
   of places it stands at.
   */
  ghost predicate Answers(log: seq<Entry>, column: seq<string>, since: int, groups: seq<Group>)
    requires |column| == |log|
  {
    && (forall k, l :: 0 <= k < l < |groups| ==>
          groups[k].name != groups[l].name && groups[l].count <= groups[k].count)
    && (forall k :: 0 <= k < |groups| ==> 0 < groups[k].count == |Places(log, column, since, groups[k].name)|)
    && (forall i :: 0 <= i < |log| && since <= log[i].createdAt ==>
          exists k :: 0 <= k < |groups| && groups[k].name == column[i])
  }

  lemma {:induction false} ShownIsAnEntry(groups: seq<Group>, k: nat)
    requires k < |groups|
    ensures 1 <= Entries(groups, groups[k].name)
    ensures Entries(groups, groups[k].name) == 1 ==> CountOf(groups, groups[k].name) == groups[k].count
  {
    if k > 0 {
      ShownIsAnEntry(groups[1..], k - 1);
    } else if Entries(groups[1..], groups[0].name) == 0 {
      NotShownIsNotCounted(groups[1..], groups[0].name);
    }
  }

  lemma {:induction false} NotShownIsNotCounted(groups: seq<Group>, name: string)
    ensures Entries(groups, name) == 0 ==> CountOf(groups, name) == 0
    ensures 0 < Entries(groups, name) <==> exists k :: 0 <= k < |groups| && groups[k].name == name
  {
    if groups != [] {
      NotShownIsNotCounted(groups[1..], name);
      if k :| 0 <= k < |groups[1..]| && groups[1..][k].name == name {
        assert groups[k + 1].name == name;
      }
    }
  }

  /** Two places with one name are two entries. */
  lemma {:induction false} TwoShownAreTwoEntries(groups: seq<Group>, k: nat, l: nat)
    requires k < l < |groups| && groups[k].name == groups[l].name
    ensures 2 <= Entries(groups, groups[k].name)
  {
    if k > 0 {
      TwoShownAreTwoEntries(groups[1..], k - 1, l - 1);
    } else {
      ShownIsAnEntry(groups[1..], l - 1);
    }
  }

  /** Grouping the window gives the answer to the query. */
  lemma GroupingAnswers(log: seq<Entry>, column: seq<string>, since: int)
    requires |column| == |log|
    ensures Answers(log, column, since, Ranked(GroupBy(InWindow(log, column, since))))
  {
    hide Sum, CountOf, Entries, GroupBy, Ranked, InWindow, Occurrences, Places;
    var names := InWindow(log, column, since);
    var groups := Ranked(GroupBy(names));
    GroupsAreExact(names);
    forall k | 0 <= k < |groups|
      ensures 0 < groups[k].count == |Places(log, column, since, groups[k].name)|
    {
      ShownIsAnEntry(groups, k);
      WindowCounts(log, column, since, groups[k].name);
      assert CountOf(groups, groups[k].name) == Occurrences(names, groups[k].name);
    }
    forall k, l | 0 <= k < l < |groups|
      ensures groups[k].name != groups[l].name
    {
      if groups[k].name == groups[l].name {
        TwoShownAreTwoEntries(groups, k, l);
        assert false;
      }
    }
    forall i | 0 <= i < |log| && since <= log[i].createdAt
      ensures exists k :: 0 <= k < |groups| && groups[k].name == column[i]
    {
      PlaceIsCounted(log, column, since, i);
      WindowCounts(log, column, since, column[i]);
      assert Entries(groups, column[i]) == 1;
      NotShownIsNotCounted(groups, column[i]);
    }
  }

  lemma PlaceIsCounted(log: seq<Entry>, column: seq<string>, since: int, i: int)
    requires |column| == |log| && 0 <= i < |log| && since <= log[i].createdAt
    ensures 0 < |Places(log, column, since, column[i])|
  {
    assert i in Places(log, column, since, column[i]);
  }

  // ---------- a growing log ----------

  /** A log that has grown keeps its places, and what they hold. */
  lemma PlacesGrow(log: seq<Entry>, column: seq<string>, later: seq<Entry>, column': seq<string>, since: int,
                   name: string)
    requires |column| == |log| && |column'| == |later| && log <= later && column <= column'
    ensures |Window(log, since)| <= |Window(later, since)|
    ensures |Places(log, column, since, name)| <= |Places(later, column', since, name)|
  {
    Smaller(Window(log, since), Window(later, since));
    Smaller(Places(log, column, since, name), Places(later, column', since, name));
  }

  lemma Smaller<T>(a: set<T>, b: set<T>)
    requires a <= b
    ensures |a| <= |b|
  {
    assert b == a + (b - a);
  }

  /** The names a column holds in the window. */
  ghost function Distinct(log: seq<Entry>, column: seq<string>, since: int): set<string>
    requires |column| == |log|
  {
    set i | 0 <= i < |log| && since <= log[i].createdAt :: column[i]
  }

  function SetOf(names: seq<string>): set<string> {
    set name | name in names
  }

  lemma DistinctOneMore(log: seq<Entry>, column: seq<string>, since: int)
    requires |column| == |log| && log != []
    ensures var last := |log| - 1;
            Distinct(log, column, since)
            == Distinct(log[..last], column[..last], since)
               + if since <= log[last].createdAt then {column[last]} else {}
  {
    var last := |log| - 1;
    if since <= log[last].createdAt {
      assert last in Window(log, since) && column[last] in Distinct(log, column, since);
    }
    forall i | 0 <= i < last && since <= log[i].createdAt
      ensures column[i] in Distinct(log, column, since) && column[i] in Distinct(log[..last], column[..last], since)
    {
      assert log[..last][i] == log[i] && column[..last][i] == column[i];
    }
  }

  lemma SetOneMore(names: seq<string>, name: string)
    ensures SetOf(names + [name]) == SetOf(names) + {name}
  {
  }

  lemma {:induction false} DistinctNames(log: seq<Entry>, column: seq<string>, since: int)
    requires |column| == |log|
    ensures SetOf(InWindow(log, column, since)) == Distinct(log, column, since)
    ensures |Distinct(log, column, since)| <= |Window(log, since)|
  {
    if log != [] {
      hide Distinct, Window, SetOf;
      var last := |log| - 1;
      DistinctNames(log[..last], column[..last], since);
      DistinctOneMore(log, column, since);
      WindowOneMore(log, since);
      SetOneMore(InWindow(log[..last], column[..last], since), column[last]);
      assert InWindow(log[..last], column[..last], since) + [] == InWindow(log[..last], column[..last], since);
    }
  }

  /** The summary's numbers, read one after the other, can only drift apart in one direction. */
  ghost predicate Coherent(s: Summary) {
    && s.total <= Sum(s.actions) <= Sum(s.entityTypes)
    && s.transitions <= CountOf(s.actions, "transition")
    && s.uniqueActors <= Sum(s.actions)
  }

  /** `logs` is the log as each of the five queries finds it. */
  method SummarizeAudits(logs: seq<seq<Entry>>, since: int) returns (summary: Summary)
    requires |logs| == 5 && forall i :: 0 <= i < 4 ==> logs[i] <= logs[i + 1]
    ensures summary.total == |set i | 0 <= i < |logs[0]| && since <= logs[0][i].createdAt|
    ensures summary.transitions
            == |set i | 0 <= i < |logs[1]| && since <= logs[1][i].createdAt && logs[1][i].action == "transition"|
    ensures summary.uniqueActors
            == |set i | 0 <= i < |logs[2]| && since <= logs[2][i].createdAt :: logs[2][i].actor|
    ensures Answers(logs[3], Actions(logs[3]), since, summary.actions)
    ensures Answers(logs[4], EntityTypes(logs[4]), since, summary.entityTypes)
    ensures Coherent(summary)
    ensures logs[0] == logs[4] ==>
              summary.total == Sum(summary.actions) == Sum(summary.entityTypes)
              && summary.transitions == CountOf(summary.actions, "transition")
  {
    hide Ranked, GroupBy, InWindow, Occurrences, Answers;
    summary := Summary(0, 0, 0, [], []);
    summary := summary.(total := |InWindow(logs[0], Actions(logs[0]), since)|);
    summary := summary.(transitions := Occurrences(InWindow(logs[1], Actions(logs[1]), since), "transition"));
    summary := summary.(uniqueActors := |SetOf(InWindow(logs[2], Actors(logs[2]), since))|);
    summary := summary.(actions := Ranked(GroupBy(InWindow(logs[3], Actions(logs[3]), since))));
    summary := summary.(entityTypes := Ranked(GroupBy(InWindow(logs[4], EntityTypes(logs[4]), since))));
    QueriesCount(logs, since);
    GroupingAnswers(logs[3], Actions(logs[3]), since);
    GroupingAnswers(logs[4], EntityTypes(logs[4]), since);
    GroupsAreExact(InWindow(logs[3], Actions(logs[3]), since));
    GroupsAreExact(InWindow(logs[4], EntityTypes(logs[4]), since));
    LaterQueriesSeeMore(logs, since);
  }

  /** What the five queries count, in places of their logs. */
  lemma QueriesCount(logs: seq<seq<Entry>>, since: int)
    requires |logs| == 5
    ensures |InWindow(logs[0], Actions(logs[0]), since)| == |Window(logs[0], since)|
    ensures Occurrences(InWindow(logs[1], Actions(logs[1]), since), "transition")
            == |Places(logs[1], Actions(logs[1]), since, "transition")|
            == |set i | 0 <= i < |logs[1]| && since <= logs[1][i].createdAt && logs[1][i].action == "transition"|
    ensures SetOf(InWindow(logs[2], Actors(logs[2]), since))
            == set i | 0 <= i < |logs[2]| && since <= logs[2][i].createdAt :: logs[2][i].actor
    ensures |SetOf(InWindow(logs[2], Actors(logs[2]), since))| <= |Window(logs[2], since)|
    ensures |InWindow(logs[3], Actions(logs[3]), since)| == |Window(logs[3], since)|
    ensures Occurrences(InWindow(logs[3], Actions(logs[3]), since), "transition")
            == |Places(logs[3], Actions(logs[3]), since, "transition")|
    ensures |InWindow(logs[4], EntityTypes(logs[4]), since)| == |Window(logs[4], since)|
  {
    WindowCounts(logs[0], Actions(logs[0]), since, "");
    WindowCounts(logs[1], Actions(logs[1]), since, "transition");
    DistinctNames(logs[2], Actors(logs[2]), since);
    WindowCounts(logs[3], Actions(logs[3]), since, "transition");
    WindowCounts(logs[4], EntityTypes(logs[4]), since, "");
    assert Places(logs[1], Actions(logs[1]), since, "transition")
        == set i | 0 <= i < |logs[1]| && since <= logs[1][i].createdAt && logs[1][i].action == "transition";
    assert Distinct(logs[2], Actors(logs[2]), since)
        == set i | 0 <= i < |logs[2]| && since <= logs[2][i].createdAt :: logs[2][i].actor;
  }

  lemma LaterQueriesSeeMore(logs: seq<seq<Entry>>, since: int)
    requires |logs| == 5 && forall i :: 0 <= i < 4 ==> logs[i] <= logs[i + 1]
    ensures |Window(logs[0], since)| <= |Window(logs[3], since)| <= |Window(logs[4], since)|
    ensures |Window(logs[2], since)| <= |Window(logs[3], since)|
    ensures |Places(logs[1], Actions(logs[1]), since, "transition")|
            <= |Places(logs[3], Actions(logs[3]), since, "transition")|
    ensures logs[0] == logs[4] ==> logs[1] == logs[3] == logs[4]
  {
    hide Window, Places;
    assert logs[0] <= logs[1] <= logs[2] <= logs[3] <= logs[4];
    PlacesGrow(logs[0], Actions(logs[0]), logs[3], Actions(logs[3]), since, "transition");
    PlacesGrow(logs[1], Actions(logs[1]), logs[3], Actions(logs[3]), since, "transition");
    PlacesGrow(logs[2], Actions(logs[2]), logs[3], Actions(logs[3]), since, "transition");
    PlacesGrow(logs[3], Actions(logs[3]), logs[4], Actions(logs[4]), since, "transition");
  }
}
