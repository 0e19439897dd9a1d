/** How many calls the limiter lets through, and the limiter as an object. */
module Admission {
  import opened Outcomes
  import opened RateLimiter

  function Cap(limit: int): nat {
    if limit < 0 then 0 else limit
  }

  function Min(a: nat, b: nat): nat {
    if a < b then a else b
  }

  /** The last call of the history is let through by the local counter. */
  predicate LetThrough(limit: int, calls: seq<Call>)
    requires calls != []
  {
    Answer(calls) <= limit
  }

  /** How many of the key's calls in the window the local counter has let through. */
  function Admitted(limit: int, calls: seq<Call>, key: string, window: nat): nat {
    if calls == [] then 0
    else
      var last := |calls| - 1;
      Admitted(limit, calls[..last], key, window)
      + if Falls(calls[last], key, window) && LetThrough(limit, calls) then 1 else 0
  }

  /** Whatever the clock does, a key is never refused before it has had its limit. */
  lemma {:induction false} NoKeyGetsLess(limit: int, calls: seq<Call>, key: string, window: nat)
    ensures Min(Cap(limit), Count(calls, key, window)) <= Admitted(limit, calls, key, window)
    ensures Admitted(limit, calls, key, window) <= Count(calls, key, window)
  {
    hide Answer, Truncate, Undisturbed;
    if calls != [] {
      NoKeyGetsLess(limit, calls[..|calls| - 1], key, window);
      AnswerIsExactExactlyWhen(calls);
    }
  }

  /** Whenever the key calls in the window, all its earlier calls there are still counted. */
  ghost predicate Steady(calls: seq<Call>, key: string, window: nat) {
    forall l :: 0 <= l < |calls| && Falls(calls[l], key, window) ==> Undisturbed(calls[..l], key, window)
  }

  lemma SteadyOneMore(calls: seq<Call>, key: string, window: nat)
    requires calls != []
    ensures var last := |calls| - 1;
            Steady(calls, key, window)
            <==> Steady(calls[..last], key, window)
                 && (Falls(calls[last], key, window) ==> Undisturbed(calls[..last], key, window))
  {
    hide Undisturbed, Falls;
    var last := |calls| - 1;
    assert forall l :: 0 <= l < last ==> calls[..last][..l] == calls[..l] && calls[..last][l] == calls[l];
  }

  /** Then the key gets exactly its limit of calls in the minute, or all it made if fewer. */
  lemma {:induction false} AdmissionIsExact(limit: int, calls: seq<Call>, key: string, window: nat)
    requires Steady(calls, key, window)
    ensures Admitted(limit, calls, key, window) == Min(Cap(limit), Count(calls, key, window))
  {
    hide Answer, Truncate, Steady, Undisturbed;
    if calls != [] {
      SteadyOneMore(calls, key, window);
      AdmissionIsExact(limit, calls[..|calls| - 1], key, window);
      AnswerIsExactExactlyWhen(calls);
    }
  }

  /** A minute that has lost nothing has lost nothing before. */
  lemma {:induction false} UndisturbedIsSteady(calls: seq<Call>, key: string, window: nat)
    requires Undisturbed(calls, key, window)
    ensures Steady(calls, key, window)
  {
    hide Truncate, Undisturbed, Steady, Displaces;
    if calls == [] {
      NoCallsAreSteady(key, window);
    } else {
      UndisturbedOneMore(calls, key, window);
      UndisturbedIsSteady(calls[..|calls| - 1], key, window);
      SteadyOneMore(calls, key, window);
    }
  }

  lemma NoCallsAreSteady(key: string, window: nat)
    ensures Steady([], key, window)
  {
  }

  /** A minute loses all it has counted at once. */
  lemma {:induction false} AllIsForgottenAtOnce(calls: seq<Call>, key: string, window: nat)
    requires Steady(calls, key, window) && !Undisturbed(calls, key, window)
    ensures Held(calls, key, window) == 0
  {
    hide Truncate, Undisturbed, Steady, Held, TableOf;
    if calls == [] {
      NothingIsUndisturbed(key, window);
    } else {
      var last := |calls| - 1;
      SteadyOneMore(calls, key, window);
      UndisturbedOneMore(calls, key, window);
      HeldAfterTheLastCall(calls, key, window);
      if !Undisturbed(calls[..last], key, window) {
        AllIsForgottenAtOnce(calls[..last], key, window);
      }
    }
  }

  /** Once calls are forgotten and another follows, the key gets one more than the limit, or all it makes. */
  lemma {:induction false} ForgettingExceedsTheLimit(limit: nat, calls: seq<Call>, key: string, window: nat)
    requires 1 <= limit && !Steady(calls, key, window)
    ensures Min(limit + 1, Count(calls, key, window)) <= Admitted(limit, calls, key, window)
  {
    hide Answer, Truncate, Steady, Undisturbed, Held;
    if calls == [] {
      NoCallsAreSteady(key, window);
    } else {
      var last := |calls| - 1;
      SteadyOneMore(calls, key, window);
      AnswerIsExactExactlyWhen(calls);
      if Steady(calls[..last], key, window) {
        AdmissionIsExact(limit, calls[..last], key, window);
        AllIsForgottenAtOnce(calls[..last], key, window);
        AnswerFollowsHeld(calls);
      } else {
        ForgettingExceedsTheLimit(limit, calls[..last], key, window);
        if Undisturbed(calls[..last], key, window) {
          UndisturbedIsSteady(calls[..last], key, window);
        }
      }
    }
  }

  lemma AnswerFollowsHeld(calls: seq<Call>)
    requires calls != []
    ensures var call := calls[|calls| - 1];
            Answer(calls) == Held(calls[..|calls| - 1], call.key, call.Window()) + 1
  {
    hide Answer, Truncate;
    var call := calls[|calls| - 1];
    AnswerIsInTheTable(calls);
    HeldAfterTheLastCall(calls, call.key, call.Window());
  }

  /** The limit is not at stake, or nothing was forgotten while more calls followed. */
  ghost predicate Unharmed(limit: int, calls: seq<Call>, key: string, window: nat) {
    limit < 1 || Count(calls, key, window) <= limit || Steady(calls, key, window)
  }

  lemma {:induction false} NothingPassesWithoutALimit(limit: int, calls: seq<Call>, key: string, window: nat)
    requires limit < 1
    ensures Admitted(limit, calls, key, window) == 0
  {
    hide Answer, Truncate;
    if calls != [] {
      NothingPassesWithoutALimit(limit, calls[..|calls| - 1], key, window);
      AnswerFollowsHeld(calls);
    }
  }

  /**
   The exact condition for the configured limit: it is held in the minute if and only if it is below one, or the
   key makes no more calls than that, or no call is forgotten while more follow.
   */
  lemma LimitHoldsExactlyWhen(limit: int, calls: seq<Call>, key: string, window: nat)
    ensures Admitted(limit, calls, key, window) <= Cap(limit) <==> Unharmed(limit, calls, key, window)
  {
    hide Steady, Admitted, Count;
    if limit < 1 {
      NothingPassesWithoutALimit(limit, calls, key, window);
    } else if Steady(calls, key, window) {
      AdmissionIsExact(limit, calls, key, window);
    } else {
      NoKeyGetsLess(limit, calls, key, window);
      ForgettingExceedsTheLimit(limit, calls, key, window);
    }
  }

  /** All limits are held if and only if no call is forgotten while more follow. */
  lemma AllLimitsHoldExactlyWhen(calls: seq<Call>, key: string, window: nat)
    ensures Steady(calls, key, window)
            <==> forall limit: int :: Admitted(limit, calls, key, window) <= Cap(limit)
  {
    hide Steady, Admitted, Count;
    forall limit: int
      ensures Admitted(limit, calls, key, window) <= Cap(limit) <==> Unharmed(limit, calls, key, window)
    {
      LimitHoldsExactlyWhen(limit, calls, key, window);
    }
    if !Steady(calls, key, window) {
      ForgettingTakesTwoCalls(calls, key, window);
      assert !Unharmed(1, calls, key, window);
    }
  }

  lemma {:induction false} ForgettingTakesTwoCalls(calls: seq<Call>, key: string, window: nat)
    requires !Steady(calls, key, window)
    ensures 2 <= Count(calls, key, window)
  {
    hide Truncate, Steady, Undisturbed;
    if calls == [] {
      NoCallsAreSteady(key, window);
    } else {
      var last := |calls| - 1;
      SteadyOneMore(calls, key, window);
      if Steady(calls[..last], key, window) {
        HeldIsExactExactlyWhen(calls[..last], key, window);
      } else {
        ForgettingTakesTwoCalls(calls[..last], key, window);
      }
    }
  }

  // ---------- a clock that does not step back into an earlier minute ----------

  lemma AdvancingWindowsAreSteady(calls: seq<Call>, key: string, window: nat)
    requires WindowsOnlyAdvance(calls)
    ensures Steady(calls, key, window)
  {
    hide Undisturbed, Truncate;
    forall l | 0 <= l < |calls| && Falls(calls[l], key, window)
      ensures Undisturbed(calls[..l], key, window)
    {
      assert calls[..l + 1][..l] == calls[..l];
      AdvancingWindowsAreUndisturbed(calls[..l + 1], key);
    }
  }

  lemma AdmittedOneMore(limit: int, calls: seq<Call>, call: Call, key: string, window: nat)
    ensures Admitted(limit, calls + [call], key, window)
            == Admitted(limit, calls, key, window)
               + if Falls(call, key, window) && LetThrough(limit, calls + [call]) then 1 else 0
  {
    assert (calls + [call])[..|calls|] == calls;
  }

  // ---------- any sixty seconds ----------

  /** How many of the key's calls from `start` on, for one minute, the local counter has let through. */
  function AdmittedFrom(limit: int, calls: seq<Call>, key: string, start: nat): nat {
    if calls == [] then 0
    else
      var last := |calls| - 1;
      AdmittedFrom(limit, calls[..last], key, start)
      + if calls[last].key == key && start <= calls[last].time < start + MINUTE && LetThrough(limit, calls)
        then 1 else 0
  }

  lemma MinuteMeetsTwoWindows(start: nat, time: nat)
    requires start <= time < start + MINUTE
    ensures Truncate(time) == Truncate(start) || Truncate(time) == Truncate(start) + MINUTE
  {
    var i, j := start / MINUTE, time / MINUTE;
    assert Truncate(start) == i * MINUTE && Truncate(time) == j * MINUTE;
    assert j == i || j == i + 1;
  }

  lemma {:induction false} SpanMeetsTwoWindows(limit: int, calls: seq<Call>, key: string, start: nat)
    ensures AdmittedFrom(limit, calls, key, start)
            <= Admitted(limit, calls, key, Truncate(start)) + Admitted(limit, calls, key, Truncate(start) + MINUTE)
  {
    hide Answer, Truncate;
    if calls != [] {
      var last := |calls| - 1;
      SpanMeetsTwoWindows(limit, calls[..last], key, start);
      if start <= calls[last].time < start + MINUTE {
        MinuteMeetsTwoWindows(start, calls[last].time);
      }
    }
  }

  /** In any sixty seconds, wherever they start, a key gets at most twice its limit if it is held in both minutes. */
  lemma {:induction false} AnySixtySeconds(limit: int, calls: seq<Call>, key: string, start: nat)
    requires Unharmed(limit, calls, key, Truncate(start)) && Unharmed(limit, calls, key, Truncate(start) + MINUTE)
    ensures AdmittedFrom(limit, calls, key, start) <= 2 * Cap(limit)
  {
    hide Truncate, Unharmed;
    SpanMeetsTwoWindows(limit, calls, key, start);
    LimitHoldsExactlyWhen(limit, calls, key, Truncate(start));
    LimitHoldsExactlyWhen(limit, calls, key, Truncate(start) + MINUTE);
  }

  /**
   While no minute follows a later one, a key gets exactly its limit in a minute, or all it asks for if that is
   less, and at most twice its limit in any sixty seconds.
   */
  lemma LimitsWhileMinutesAdvance(limit: int, calls: seq<Call>, key: string, window: nat, start: nat)
    requires WindowsOnlyAdvance(calls)
    ensures Admitted(limit, calls, key, window) == Min(Cap(limit), Count(calls, key, window))
    ensures AdmittedFrom(limit, calls, key, start) <= 2 * Cap(limit)
  {
    hide Truncate, Steady, WindowsOnlyAdvance;
    AdvancingWindowsAreSteady(calls, key, window);
    AdvancingWindowsAreSteady(calls, key, Truncate(start));
    AdvancingWindowsAreSteady(calls, key, Truncate(start) + MINUTE);
    AdmissionIsExact(limit, calls, key, window);
    AnySixtySeconds(limit, calls, key, start);
  }

  // ---------- Redis with the local counter behind it ----------

  /**
   What becomes of requests. Redis takes an increment, and may be asked to repeat one whose answer was lost; a
   request ends with Redis's answer or falls back on the local counter. Requests overlap as they like.
   */
  datatype Event =
    | Asked(request: nat, call: Call, answer: Option<nat>)
    | FellBack(request: nat, call: Call)
  {
    predicate Ends() { FellBack? || answer.Some? }
  }

  /** The increments that Redis has taken for the key in the window. */
  function Taken(trace: seq<Event>, key: string, window: nat): nat {
    if trace == [] then 0
    else
      var last := |trace| - 1;
      Taken(trace[..last], key, window)
      + if trace[last].Asked? && Falls(trace[last].call, key, window) then 1 else 0
  }

  /** The calls the local counter has seen. */
  function LocalOf(trace: seq<Event>): seq<Call> {
    if trace == [] then []
    else
      var last := |trace| - 1;
      if trace[last].FellBack? then LocalOf(trace[..last]) + [trace[last].call] else LocalOf(trace[..last])
  }

  /** No request goes on after its end. */
  ghost predicate EndsOnce(trace: seq<Event>) {
    forall i, j :: 0 <= i < j < |trace| && trace[i].request == trace[j].request ==> !trace[i].Ends()
  }

  /** Redis answers with at least the increments taken here; other servers may have added theirs. */
  ghost predicate RedisCounts(trace: seq<Event>) {
    forall i :: 0 <= i < |trace| && trace[i].Asked? && trace[i].answer.Some? ==>
      Taken(trace[..i + 1], trace[i].call.key, trace[i].call.Window()) <= trace[i].answer.value
  }

  /** The last event lets its request through: by the counter that answers it. */
  predicate Lets(limit: int, trace: seq<Event>)
    requires trace != []
  {
    match trace[|trace| - 1]
    case Asked(_, _, answer) => answer.Some? && answer.value <= limit
    case FellBack(_, _) => Answer(LocalOf(trace)) <= limit
  }

  /** The requests of the key that have been let through by a counter of the window. */
  function AdmittedRequests(limit: int, trace: seq<Event>, key: string, window: nat): set<nat> {
    if trace == [] then {}
    else
      var last := |trace| - 1;
      AdmittedRequests(limit, trace[..last], key, window)
      + if Falls(trace[last].call, key, window) && Lets(limit, trace) then {trace[last].request} else {}
  }

  /** Those of them that Redis has let through. */
  function AdmittedByRedis(limit: int, trace: seq<Event>, key: string, window: nat): nat {
    if trace == [] then 0
    else
      var last := |trace| - 1;
      AdmittedByRedis(limit, trace[..last], key, window)
      + if trace[last].Asked? && Falls(trace[last].call, key, window) && Lets(limit, trace) then 1 else 0
  }

  lemma {:induction false} RedisCountsOneMore(trace: seq<Event>)
    requires trace != []
    ensures var last := |trace| - 1;
            RedisCounts(trace)
            <==> RedisCounts(trace[..last])
                 && (trace[last].Asked? && trace[last].answer.Some? ==>
                       Taken(trace, trace[last].call.key, trace[last].call.Window()) <= trace[last].answer.value)
  {
    hide Taken, Truncate;
    var last := |trace| - 1;
    assert forall i :: 0 <= i < last ==> trace[..last][..i + 1] == trace[..i + 1] && trace[..last][i] == trace[i];
    assert trace[..last + 1] == trace;
  }

  lemma {:induction false} RedisHoldsTheLimit(limit: int, trace: seq<Event>, key: string, window: nat)
    requires RedisCounts(trace)
    ensures AdmittedByRedis(limit, trace, key, window) <= Min(Cap(limit), Taken(trace, key, window))
  {
    hide Truncate, RedisCounts, Answer, LocalOf;
    if trace != [] {
      RedisCountsOneMore(trace);
      RedisHoldsTheLimit(limit, trace[..|trace| - 1], key, window);
    }
  }

  /** A request that ends now has not been let through before. */
  lemma {:induction false} LetThroughAtItsEnd(limit: int, trace: seq<Event>, key: string, window: nat, request: nat)
    requires request in AdmittedRequests(limit, trace, key, window)
    ensures exists i :: 0 <= i < |trace| && trace[i].request == request && trace[i].Ends()
  {
    hide Truncate, Answer, LocalOf, Falls;
    var last := |trace| - 1;
    if trace[last].request != request || !trace[last].Ends() {
      LetThroughAtItsEnd(limit, trace[..last], key, window, request);
      var i :| 0 <= i < last && trace[..last][i].request == request && trace[..last][i].Ends();
      assert trace[i].request == request;
    }
  }

  /** Every admitted request was let through once, by Redis or by the local counter. */
  lemma {:induction false} TwoCountersAdmit(limit: int, trace: seq<Event>, key: string, window: nat)
    requires EndsOnce(trace)
    ensures |AdmittedRequests(limit, trace, key, window)|
            == AdmittedByRedis(limit, trace, key, window) + Admitted(limit, LocalOf(trace), key, window)
  {
    hide Truncate, Answer, Falls;
    if trace != [] {
      var last := |trace| - 1;
      TwoCountersAdmit(limit, trace[..last], key, window);
      if Lets(limit, trace) && trace[last].request in AdmittedRequests(limit, trace[..last], key, window) {
        LetThroughAtItsEnd(limit, trace[..last], key, window, trace[last].request);
        assert false;
      }
      if trace[last].FellBack? {
        AdmittedOneMore(limit, LocalOf(trace[..last]), trace[last].call, key, window);
      }
    }
  }

  /** However Redis fails and its answers are lost, it adds at most the limit to what the local counter lets through. */
  lemma RedisAddsItsLimit(limit: int, trace: seq<Event>, key: string, window: nat)
    requires EndsOnce(trace) && RedisCounts(trace)
    ensures |AdmittedRequests(limit, trace, key, window)|
            <= Cap(limit) + Admitted(limit, LocalOf(trace), key, window)
  {
    hide EndsOnce, RedisCounts, Truncate;
    TwoCountersAdmit(limit, trace, key, window);
    RedisHoldsTheLimit(limit, trace, key, window);
  }

  /** No failure of Redis lets more than twice the limit of the key's requests through in the minute. */
  ghost predicate TwiceTheLimitHolds(limit: int, calls: seq<Call>, key: string, window: nat) {
    forall trace :: EndsOnce(trace) && RedisCounts(trace) && LocalOf(trace) == calls ==>
      |AdmittedRequests(limit, trace, key, window)| <= 2 * Cap(limit)
  }

  /**
   The exact condition for the bound under failures: whatever becomes of the requests of a minute, at most twice
   the limit of them are let through, if and only if the local counter holds the limit on the calls it sees.
   */
  lemma AnyFailuresOfRedis(limit: int, calls: seq<Call>, key: string, window: nat)
    ensures TwiceTheLimitHolds(limit, calls, key, window) <==> Unharmed(limit, calls, key, window)
  {
    hide EndsOnce, RedisCounts, Unharmed, Admitted, AdmittedRequests, LocalOf, Truncate;
    LimitHoldsExactlyWhen(limit, calls, key, window);
    if Unharmed(limit, calls, key, window) {
      forall trace | EndsOnce(trace) && RedisCounts(trace) && LocalOf(trace) == calls
        ensures |AdmittedRequests(limit, trace, key, window)| <= 2 * Cap(limit)
      {
        RedisAddsItsLimit(limit, trace, key, window);
      }
    } else {
      var trace := WorstCase(limit, calls, key, window);
      assert 2 * Cap(limit) < |AdmittedRequests(limit, trace, key, window)|;
    }
  }

  /** In particular while no minute follows a later one on the local counter's clock. */
  lemma FailuresWhileMinutesAdvance(limit: int, trace: seq<Event>, key: string, window: nat)
    requires EndsOnce(trace) && RedisCounts(trace) && WindowsOnlyAdvance(LocalOf(trace))
    ensures |AdmittedRequests(limit, trace, key, window)| <= 2 * Cap(limit)
  {
    hide EndsOnce, RedisCounts, Steady, WindowsOnlyAdvance, AdmittedRequests, LocalOf;
    AdvancingWindowsAreSteady(LocalOf(trace), key, window);
    AnyFailuresOfRedis(limit, LocalOf(trace), key, window);
  }

  // ---------- the worst failure ----------

  /** Requests that find Redis out of reach. */
  function Fallbacks(calls: seq<Call>): seq<Event> {
    if calls == [] then []
    else
      var last := |calls| - 1;
      Fallbacks(calls[..last]) + [FellBack(last, calls[last])]
  }

  /** Redis comes back and answers n more requests. */
  function Recovered(calls: seq<Call>, call: Call, n: nat): seq<Event> {
    if n == 0 then Fallbacks(calls)
    else Recovered(calls, call, n - 1) + [Asked(|calls| + n - 1, call, Some(n))]
  }

  ghost predicate Numbered(trace: seq<Event>) {
    forall i :: 0 <= i < |trace| ==> trace[i].request == i
  }

  lemma {:induction false} FallbacksAreATrace(limit: int, calls: seq<Call>, key: string, window: nat)
    ensures var trace := Fallbacks(calls);
            && |trace| == |calls| && Numbered(trace) && RedisCounts(trace) && LocalOf(trace) == calls
            && Taken(trace, key, window) == 0 && AdmittedByRedis(limit, trace, key, window) == 0
  {
    hide Truncate, RedisCounts, Answer;
    if calls == [] {
      NothingWasAsked();
    } else {
      var last := |calls| - 1;
      FallbacksAreATrace(limit, calls[..last], key, window);
      assert Fallbacks(calls)[..last] == Fallbacks(calls[..last]);
      RedisCountsOneMore(Fallbacks(calls));
    }
  }

  lemma NothingWasAsked()
    ensures RedisCounts([])
  {
  }

  lemma {:induction false} RecoveredIsATrace(limit: int, calls: seq<Call>, call: Call, n: nat)
    requires n <= Cap(limit)
    ensures var trace := Recovered(calls, call, n);
            && |trace| == |calls| + n && Numbered(trace) && RedisCounts(trace) && LocalOf(trace) == calls
            && Taken(trace, call.key, call.Window()) == n
            && AdmittedByRedis(limit, trace, call.key, call.Window()) == n
  {
    hide Truncate, RedisCounts, Answer;
    if n == 0 {
      FallbacksAreATrace(limit, calls, call.key, call.Window());
    } else {
      RecoveredIsATrace(limit, calls, call, n - 1);
      var trace := Recovered(calls, call, n);
      assert trace[..|trace| - 1] == Recovered(calls, call, n - 1);
      RedisCountsOneMore(trace);
    }
  }

  /** A forgotten minute on the local counter, and then a full one on Redis. */
  lemma WorstCase(limit: int, calls: seq<Call>, key: string, window: nat) returns (trace: seq<Event>)
    requires !Unharmed(limit, calls, key, window)
    ensures EndsOnce(trace) && RedisCounts(trace) && LocalOf(trace) == calls
    ensures 2 * Cap(limit) < |AdmittedRequests(limit, trace, key, window)|
  {
    hide Truncate, RedisCounts, LocalOf, Admitted, AdmittedRequests, AdmittedByRedis, Steady;
    NothingCountedExactlyWhen(calls, key, window);
    var i :| 0 <= i < |calls| && Falls(calls[i], key, window);
    trace := Recovered(calls, calls[i], limit);
    RecoveredIsATrace(limit, calls, calls[i], limit);
    TwoCountersAdmit(limit, trace, key, window);
    LimitHoldsExactlyWhen(limit, calls, key, window);
  }

  // ---------- the limiter ----------

  class Limiter {
    const limit: int
    var local: map<string, Bucket>
    ghost var trace: seq<Event>
    ghost var requests: nat

    /** The buckets are what the history of local calls leaves, so every result above holds of this object. */
    ghost predicate Valid()
      reads this
    {
      && local == TableOf(LocalOf(trace))
      && EndsOnce(trace) && forall i :: 0 <= i < |trace| ==> trace[i].request < requests
    }

    constructor (limit: int)
      ensures Valid() && trace == [] && this.limit == limit
    {
      this.limit, local, trace, requests := limit, map[], [], 0;
    }

    /** Deletes the buckets of windows that are over, once there are many; the table is changed while it is walked. */
    method CleanupLocal(current: nat)
      modifies this`local
      ensures local == if |old(local)| < 512 then old(local)
                       else map key | key in old(local) && current <= old(local)[key].window :: old(local)[key]
    {
      if |local| < CLEANUP_THRESHOLD {
        return;
      }
      var pending := local.Keys;
      while pending != {}
        invariant pending <= local.Keys <= old(local).Keys
        invariant forall key :: key in local ==> local[key] == old(local)[key]
        invariant forall key :: key in old(local) ==>
                    (key in local <==> key in pending || current <= old(local)[key].window)
        decreases |pending|
      {
        var key :| key in pending;
        pending := pending - {key};
        if local[key].window < current {
          local := local - {key};
        }
      }
    }

    /** The answer is the number of calls of the key in the minute, exactly when none of them has been displaced. */
    method IncrementLocal(key: string, time: nat, ghost calls: seq<Call>) returns (count: nat)
      requires local == TableOf(calls)
      modifies this`local
      ensures var window, all := Truncate(time), calls + [Call(key, time)];
              && local == TableOf(all)
              && count == Answer(all) <= Count(all, key, window)
              && (count == Count(all, key, window) <==> Undisturbed(calls, key, window))
              && (|local| <= 512 || |local| <= |KeysFrom(all, window)|)
    {
      hide Undisturbed, Truncate;
      var now := Truncate(time);
      CleanupLocal(now);
      var value := if key in local then local[key] else Bucket(0, 0);
      if value.window != now {
        value := Bucket(now, 0);
      }
      value := value.(count := value.count + 1);
      local := local[key := value];
      count := value.count;
      CallIsEntered(calls, Call(key, time));
    }

    /**
     Asked at `asked`, Redis may take `lost` increments without answering. Its answer decides if there is one; if
     not, the local counter does, at `time`.
     */
    method Admit(key: string, asked: nat, ghost lost: nat, answer: Option<nat>, time: nat)
        returns (admitted: bool, remaining: nat)
      requires Valid()
      modifies this
      ensures Valid()
      ensures trace == old(trace) + Lost(old(requests), Call(key, asked), lost) +
                       [if answer.Some? then Asked(old(requests), Call(key, asked), answer)
                        else FellBack(old(requests), Call(key, time))]
      ensures var count := if answer.Some? then answer.value else Answer(LocalOf(trace));
              (admitted <==> count <= limit) && remaining == if count <= limit then limit - count else 0
      ensures admitted <==> Lets(limit, trace)
    {
      hide Undisturbed, Truncate, EndsOnce, TableOf, Answer;
      ghost var asking := trace + Lost(requests, Call(key, asked), lost);
      ghost var end :=
        if answer.Some? then Asked(requests, Call(key, asked), answer) else FellBack(requests, Call(key, time));
      RequestIsTraced(trace, requests, Call(key, asked), lost, end);
      var count;
      if answer.Some? {
        count := answer.value;
      } else {
        count := IncrementLocal(key, time, LocalOf(trace));
      }
      trace, requests := asking + [end], requests + 1;
      remaining := if limit - count < 0 then 0 else limit - count;
      admitted := count <= limit;
    }
  }

  /** Increments of one request whose answers were lost. */
  function Lost(request: nat, call: Call, times: nat): (events: seq<Event>)
    ensures |events| == times && forall i :: 0 <= i < times ==> events[i] == Asked(request, call, None)
  {
    seq(times, i => Asked(request, call, None))
  }

  lemma {:induction false} LostIsNotLocal(trace: seq<Event>, request: nat, call: Call, times: nat)
    ensures LocalOf(trace + Lost(request, call, times)) == LocalOf(trace)
  {
    var all := trace + Lost(request, call, times);
    if times == 0 {
      assert all == trace;
    } else {
      LostIsNotLocal(trace, request, call, times - 1);
      assert all[..|all| - 1] == trace + Lost(request, call, times - 1);
    }
  }

  lemma RequestIsTraced(trace: seq<Event>, request: nat, call: Call, lost: nat, end: Event)
    requires EndsOnce(trace) && forall i :: 0 <= i < |trace| ==> trace[i].request < request
    requires end.request == request && end.Ends()
    ensures var all := trace + Lost(request, call, lost) + [end];
            && EndsOnce(all) && (forall i :: 0 <= i < |all| ==> all[i].request < request + 1)
            && LocalOf(all) == if end.FellBack? then LocalOf(trace) + [end.call] else LocalOf(trace)
  {
    var asking := trace + Lost(request, call, lost);
    assert (asking + [end])[..|asking|] == asking;
    LostIsNotLocal(trace, request, call, lost);
  }

  lemma CallIsEntered(calls: seq<Call>, call: Call)
    ensures var all := calls + [call];
            && TableOf(all) == AfterCall(TableOf(calls), call)
            && Answer(all) == Incremented(Cleaned(TableOf(calls), call.Window()), call).count
            && Answer(all) <= Count(all, call.key, call.Window())
            && (Answer(all) == Count(all, call.key, call.Window()) <==> Undisturbed(calls, call.key, call.Window()))
            && (|TableOf(all)| <= CLEANUP_THRESHOLD || |TableOf(all)| <= |KeysFrom(all, call.Window())|)
  {
    hide Undisturbed, Truncate;
    var all := calls + [call];
    assert all[..|calls|] == calls;
    TableOneMore(calls, call);
    AnswerIsExactExactlyWhen(all);
    MemoryIsBounded(all);
  }
}
