/** The fixed-window rate limiter: a table that forgets old windows, against a plain count of all calls. */
module RateLimiter {
  /** Nanoseconds. */
  const MINUTE: nat := 60_000_000_000

  const CLEANUP_THRESHOLD: nat := 512

  function Truncate(time: nat): (window: nat)
    ensures window <= time < window + 60_000_000_000 && window % 60_000_000_000 == 0
  {
    time - time % MINUTE
  }

  datatype Bucket = Bucket(window: nat, count: nat)

  datatype Call = Call(key: string, time: nat) {
    function Window(): nat { Truncate(time) }
  }

  // ---------- the naive counter ----------

  predicate Falls(call: Call, key: string, window: nat) {
    call.key == key && call.Window() == window
  }

  /** How many calls the key has made in the window. */
  function Count(calls: seq<Call>, key: string, window: nat): nat {
    if calls == [] then 0
    else
      var last := |calls| - 1;
      Count(calls[..last], key, window) + if Falls(calls[last], key, window) then 1 else 0
  }

  /** The keys that have called in the window. */
  function KeysIn(calls: seq<Call>, window: nat): set<string> {
    set call | call in calls && call.Window() == window :: call.key
  }

  /** The clock may step back, but not into a minute that was over. */
  ghost predicate WindowsOnlyAdvance(calls: seq<Call>) {
    forall i, j :: 0 <= i < j < |calls| ==> calls[i].Window() <= calls[j].Window()
  }

  // ---------- the table ----------

  function Cleaned(local: map<string, Bucket>, current: nat): map<string, Bucket> {
    if |local| < CLEANUP_THRESHOLD then local
    else map key | key in local && current <= local[key].window :: local[key]
  }

  function Incremented(local: map<string, Bucket>, call: Call): Bucket {
    if call.key in local && local[call.key].window == call.Window()
    then local[call.key].(count := local[call.key].count + 1)
    else Bucket(call.Window(), 1)
  }

  function AfterCall(local: map<string, Bucket>, call: Call): map<string, Bucket> {
    var kept := Cleaned(local, call.Window());
    kept[call.key := Incremented(kept, call)]
  }

  /** The table after a history of calls. */
  function TableOf(calls: seq<Call>): map<string, Bucket> {
    if calls == [] then map[]
    else AfterCall(TableOf(calls[..|calls| - 1]), calls[|calls| - 1])
  }

  // ---------- what the table still holds of the history ----------

  /** How many of the key's calls in the window the table still counts. */
  function Held(calls: seq<Call>, key: string, window: nat): nat {
    var local := TableOf(calls);
    if key in local && local[key].window == window then local[key].count else 0
  }

  /** The two ways to lose the count of a window: the key calls in another one, or a cleanup finds it over. */
  predicate Displaces(calls: seq<Call>, j: nat, key: string, window: nat)
    requires j < |calls|
  {
    || (calls[j].key == key && calls[j].Window() != window)
    || (512 <= |TableOf(calls[..j])| && window < calls[j].Window())
  }

  /** Nothing has displaced the window since the key first called in it. */
  ghost predicate Undisturbed(calls: seq<Call>, key: string, window: nat) {
    forall i, j :: 0 <= i < j < |calls| && Falls(calls[i], key, window) ==> !Displaces(calls, j, key, window)
  }

  lemma CountOneMore(calls: seq<Call>, call: Call, key: string, window: nat)
    ensures Count(calls + [call], key, window) == Count(calls, key, window) + if Falls(call, key, window) then 1 else 0
  {
    assert (calls + [call])[..|calls|] == calls;
  }

  lemma TableOneMore(calls: seq<Call>, call: Call)
    ensures TableOf(calls + [call]) == AfterCall(TableOf(calls), call)
  {
    assert (calls + [call])[..|calls|] == calls;
  }

  /** The last call adds to the bucket of its own window, empties the ones it displaces, and leaves the rest. */
  lemma HeldAfterTheLastCall(calls: seq<Call>, key: string, window: nat)
    requires calls != []
    ensures var last := |calls| - 1;
            Held(calls, key, window) ==
            if Falls(calls[last], key, window) then Held(calls[..last], key, window) + 1
            else if Displaces(calls, last, key, window) then 0
            else Held(calls[..last], key, window)
  {
    hide Truncate;
  }

  lemma {:induction false} NothingCountedExactlyWhen(calls: seq<Call>, key: string, window: nat)
    ensures Count(calls, key, window) == 0 <==> forall i :: 0 <= i < |calls| ==> !Falls(calls[i], key, window)
  {
    hide Falls;
    if calls != [] {
      NothingCountedExactlyWhen(calls[..|calls| - 1], key, window);
    }
  }

  /** A longer history is undisturbed if the shorter one was, and its last call displaces nothing that was counted. */
  lemma UndisturbedOneMore(calls: seq<Call>, key: string, window: nat)
    requires calls != []
    ensures var last := |calls| - 1;
            Undisturbed(calls, key, window)
            <==> Undisturbed(calls[..last], key, window)
                 && (0 < Count(calls[..last], key, window) ==> !Displaces(calls, last, key, window))
  {
    hide Falls, Truncate, TableOf;
    var last := |calls| - 1;
    NothingCountedExactlyWhen(calls[..last], key, window);
    assert forall j :: 0 <= j < last ==> calls[..last][..j] == calls[..j] && calls[..last][j] == calls[j];
    assert forall j :: 0 <= j < last ==>
        (Displaces(calls[..last], j, key, window) <==> Displaces(calls, j, key, window));
  }

  /** Whatever the clock does no call is counted twice, and all are still counted iff nothing displaced them. */
  lemma {:induction false} HeldIsExactExactlyWhen(calls: seq<Call>, key: string, window: nat)
    ensures Held(calls, key, window) <= Count(calls, key, window)
    ensures Held(calls, key, window) == Count(calls, key, window) <==> Undisturbed(calls, key, window)
  {
    hide Held, Undisturbed, Truncate;
    if calls == [] {
      NothingIsUndisturbed(key, window);
    } else {
      var last := |calls| - 1;
      HeldIsExactExactlyWhen(calls[..last], key, window);
      HeldAfterTheLastCall(calls, key, window);
      UndisturbedOneMore(calls, key, window);
    }
  }

  lemma NothingIsUndisturbed(key: string, window: nat)
    ensures Held([], key, window) == 0 && Undisturbed([], key, window)
  {
  }

  /** Whatever the clock does, no bucket counts more calls than were made. */
  lemma {:induction false} TheTableNeverOvercounts(calls: seq<Call>, key: string)
    requires key in TableOf(calls)
    ensures TableOf(calls)[key].count <= Count(calls, key, TableOf(calls)[key].window)
  {
    hide TableOf;
    HeldIsExactExactlyWhen(calls, key, TableOf(calls)[key].window);
  }

  // ---------- answers ----------

  /** The number a call is answered with. */
  function Answer(calls: seq<Call>): nat
    requires calls != []
  {
    var last := |calls| - 1;
    Incremented(Cleaned(TableOf(calls[..last]), calls[last].Window()), calls[last]).count
  }

  lemma AnswerIsInTheTable(calls: seq<Call>)
    requires calls != []
    ensures var call := calls[|calls| - 1];
            call.key in TableOf(calls) && TableOf(calls)[call.key] == Bucket(call.Window(), Answer(calls))
  {
  }

  /**
   A call is answered with the number of calls of its key in its minute if and only if nothing displaced
   that minute between the first of them and this one; otherwise with less.
   */
  lemma {:induction false} AnswerIsExactExactlyWhen(calls: seq<Call>)
    requires calls != []
    ensures var last, call := |calls| - 1, calls[|calls| - 1];
            && Answer(calls) <= Count(calls, call.key, call.Window())
            && (Answer(calls) == Count(calls, call.key, call.Window())
                <==> Undisturbed(calls[..last], call.key, call.Window()))
  {
    hide TableOf, Undisturbed, Truncate;
    var last := |calls| - 1;
    var call := calls[last];
    AnswerIsInTheTable(calls);
    HeldAfterTheLastCall(calls, call.key, call.Window());
    HeldIsExactExactlyWhen(calls[..last], call.key, call.Window());
  }

  lemma AdvancingWindowsAreUndisturbed(calls: seq<Call>, key: string)
    requires WindowsOnlyAdvance(calls) && calls != []
    ensures Undisturbed(calls[..|calls| - 1], key, calls[|calls| - 1].Window())
  {
    hide Truncate, TableOf;
    var last := |calls| - 1;
    var before, window := calls[..last], calls[last].Window();
    forall i, j | 0 <= i < j < |before| && Falls(before[i], key, window)
      ensures !Displaces(before, j, key, window)
    {
      assert calls[i].Window() <= calls[j].Window() <= calls[last].Window();
    }
  }

  /** While no window follows a later one, each call is answered with the number of calls of its key in its minute. */
  lemma {:induction false} AnswersAreExact(calls: seq<Call>)
    requires WindowsOnlyAdvance(calls) && calls != []
    ensures var call := calls[|calls| - 1];
            Answer(calls) == Count(calls, call.key, call.Window())
  {
    hide Answer, Undisturbed, WindowsOnlyAdvance;
    AdvancingWindowsAreUndisturbed(calls, calls[|calls| - 1].key);
    AnswerIsExactExactlyWhen(calls);
  }

  /** A clock that steps back a minute can make the limiter forget: the third call of a minute is answered with one. */
  lemma ClockStepsBack(key: string)
    ensures var calls := [Call(key, MINUTE), Call(key, MINUTE), Call(key, 0), Call(key, MINUTE)];
            Answer(calls) == 1 && Count(calls, key, MINUTE) == 3
  {
    var late, early := Call(key, MINUTE), Call(key, 0);
    var three := [late, late] + [early];
    var calls := [late, late, early, late];
    assert calls == three + [late] && calls[..3] == three;
    AnswerIsInTheTable(three);
    assert [late, late] == [late] + [late] && [late] == [] + [late];
    CountOneMore(three, late, key, MINUTE);
    CountOneMore([late, late], early, key, MINUTE);
    CountOneMore([late], late, key, MINUTE);
    CountOneMore([], late, key, MINUTE);
  }

  // ---------- memory ----------

  ghost function Now(calls: seq<Call>): nat {
    if calls == [] then 0 else calls[|calls| - 1].Window()
  }

  /** The keys that have called in the window or a later one. */
  function KeysFrom(calls: seq<Call>, window: nat): set<string> {
    set call | call in calls && window <= call.Window() :: call.key
  }

  lemma {:induction false} BucketsComeFromCalls(calls: seq<Call>, key: string)
    requires key in TableOf(calls)
    ensures exists call :: call in calls && call.key == key && call.Window() == TableOf(calls)[key].window
  {
    hide Truncate;
    var last := |calls| - 1;
    if calls[last].key == key {
      assert calls[last] in calls;
    } else {
      BucketsComeFromCalls(calls[..last], key);
      var call :| call in calls[..last] && call.key == key && call.Window() == TableOf(calls[..last])[key].window;
      assert call in calls;
    }
  }

  /** Whatever the clock does, the table holds no more entries than 512, or than keys from the current minute on. */
  lemma MemoryIsBounded(calls: seq<Call>)
    ensures |TableOf(calls)| <= 512 || |TableOf(calls)| <= |KeysFrom(calls, Now(calls))|
  {
    if calls != [] {
      var last, now := |calls| - 1, Now(calls);
      var before := TableOf(calls[..last]);
      if |before| < CLEANUP_THRESHOLD {
        assert TableOf(calls).Keys == before.Keys + {calls[last].key};
      } else {
        forall key | key in TableOf(calls)
          ensures key in KeysFrom(calls, now)
        {
          BucketsComeFromCalls(calls, key);
          assert now <= TableOf(calls)[key].window;
        }
        SmallerSet(TableOf(calls).Keys, KeysFrom(calls, now));
      }
    }
  }

  /** While no window follows a later one, these are the keys of the current minute. */
  lemma NoKeysAhead(calls: seq<Call>)
    requires WindowsOnlyAdvance(calls)
    ensures KeysFrom(calls, Now(calls)) == KeysIn(calls, Now(calls))
  {
    hide Truncate;
    forall call | call in calls
      ensures call.Window() <= Now(calls)
    {
      var i :| 0 <= i < |calls| && calls[i] == call;
    }
  }

  /** So while minutes advance the table holds no more entries than 512, or than keys called in the current one. */
  lemma MemoryWhileMinutesAdvance(calls: seq<Call>)
    requires WindowsOnlyAdvance(calls)
    ensures |TableOf(calls)| <= 512 || |TableOf(calls)| <= |KeysIn(calls, Now(calls))|
  {
    hide TableOf, WindowsOnlyAdvance, KeysIn, KeysFrom, Now;
    MemoryIsBounded(calls);
    NoKeysAhead(calls);
  }

  lemma SmallerSet<T>(a: set<T>, b: set<T>)
    requires a <= b
    ensures |a| <= |b|
  {
    assert b == a + (b - a);
  }
}
