/** One operation of the campus connector: its circuit breaker and run exclusion under any interleaving
    of heartbeats, poll workers and schedulers, and the two capped backoffs. Times are in seconds for
    the breaker and the poll workers, in minutes for the roster schedule. */
module ConnectorRunner {
  import opened Options
  import opened Basics

  const MAX_FAILURES := 5
  const OPEN_SECONDS := 30

  /** openUntil 0 is the zero time. */
  datatype Breaker = Breaker(fails: nat, openUntil: nat, health: string, running: bool)

  datatype Outcome = Success | Failure(code: string)

  function NewBreaker(): Breaker {
    Breaker(0, 0, "upstream_unavailable", false)
  }

  predicate IsOpen(b: Breaker, now: nat) {
    b.openUntil > now
  }

  predicate MayBegin(b: Breaker, now: nat) {
    !b.running && !IsOpen(b, now)
  }

  function Recorded(b: Breaker, outcome: Outcome, now: nat): Breaker {
    match outcome
    case Success => b.(fails := 0, openUntil := 0, health := "ok")
    case Failure(code) =>
      b.(fails := b.fails + 1, health := code, openUntil := if b.fails + 1 >= MAX_FAILURES then now + OPEN_SECONDS else b.openUntil)
  }

  function CurrentHealth(b: Breaker, fallback: string): string {
    if b.health == "" || b.health == "upstream_unavailable" then fallback else b.health
  }

  // ---- threads ----

  /** `syncing` threads are past a granted begin, `ending` ones have only their end left; `probing`
      threads (heartbeats and interactive requests) found the breaker closed and have not reported yet. */
  datatype System = System(breaker: Breaker, syncing: set<nat>, ending: set<nat>, probing: set<nat>)

  datatype Event =
    | Begin(thread: nat, now: nat)
    | SyncDone(thread: nat, outcome: Option<Outcome>, now: nat)
    | End(thread: nat)
    | Check(thread: nat, now: nat)
    | Report(thread: nat, outcome: Option<Outcome>, now: nat)

  predicate Busy(s: System, thread: nat) {
    thread in s.syncing || thread in s.ending || thread in s.probing
  }

  /** None is an outcome that is not recorded: a failed upload, or a rejected password. */
  function RecordedIf(b: Breaker, outcome: Option<Outcome>, now: nat): Breaker {
    if outcome.Some? then Recorded(b, outcome.value, now) else b
  }

  function Next(s: System, e: Event): System {
    match e
    case Begin(t, now) =>
      if Busy(s, t) || !MayBegin(s.breaker, now) then s
      else s.(breaker := s.breaker.(running := true), syncing := s.syncing + {t})
    case SyncDone(t, outcome, now) =>
      if t !in s.syncing then s
      else System(RecordedIf(s.breaker, outcome, now), s.syncing - {t}, s.ending + {t}, s.probing)
    case End(t) =>
      if t !in s.ending then s else s.(breaker := s.breaker.(running := false), ending := s.ending - {t})
    case Check(t, now) =>
      if Busy(s, t) || IsOpen(s.breaker, now) then s else s.(probing := s.probing + {t})
    case Report(t, outcome, now) =>
      if t !in s.probing then s else s.(breaker := RecordedIf(s.breaker, outcome, now), probing := s.probing - {t})
  }

  function Run(events: seq<Event>): System {
    if events == [] then System(NewBreaker(), {}, {}, {}) else Next(Run(events[..|events| - 1]), events[|events| - 1])
  }

  // ---- run exclusion ----

  predicate Exclusive(s: System) {
    && s.syncing !! s.ending
    && (forall t, u | t in s.syncing + s.ending && u in s.syncing + s.ending :: t == u)
    && (s.breaker.running <==> s.syncing + s.ending != {})
  }

  lemma {:induction false} RunIsExclusive(events: seq<Event>)
    ensures Exclusive(Run(events))
  {
    if events != [] {
      RunIsExclusive(events[..|events| - 1]);
      StepIsExclusive(Run(events[..|events| - 1]), events[|events| - 1]);
    }
  }

  lemma StepIsExclusive(s: System, e: Event)
    requires Exclusive(s)
    ensures Exclusive(Next(s, e))
  {
  }

  /** At most one thread is between a granted begin and its end, and `running` says whether one is. */
  lemma OneRunAtATime(events: seq<Event>, t: nat, u: nat)
    requires t in Run(events).syncing + Run(events).ending && u in Run(events).syncing + Run(events).ending
    ensures t == u && Run(events).breaker.running
  {
    RunIsExclusive(events);
  }

  // ---- the breaker refines its history ----

  datatype Record = Record(outcome: Outcome, at: nat)

  predicate Records(s: System, e: Event) {
    (e.SyncDone? && e.thread in s.syncing && e.outcome.Some?) || (e.Report? && e.thread in s.probing && e.outcome.Some?)
  }

  /** What was recorded, in the order the lock was taken. */
  function History(events: seq<Event>): seq<Record> {
    if events == [] then []
    else
      var before, e := events[..|events| - 1], events[|events| - 1];
      if Records(Run(before), e) then History(before) + [Record(e.outcome.value, e.now)] else History(before)
  }

  /** Failures since the last success. */
  function FailStreak(h: seq<Record>): nat {
    if h == [] || h[|h| - 1].outcome.Success? then 0 else FailStreak(h[..|h| - 1]) + 1
  }

  /** Five failures or more stand since the last success, the last of them less than thirty seconds old. */
  predicate Tripped(h: seq<Record>, now: nat) {
    FailStreak(h) >= MAX_FAILURES && now < h[|h| - 1].at + OPEN_SECONDS
  }

  /** The last recorded failure, with an unavailable upstream counted as none. */
  function HealthOf(h: seq<Record>, fallback: string): string {
    if h == [] then fallback
    else
      match h[|h| - 1].outcome
      case Success => "ok"
      case Failure(code) => if code in {"", "upstream_unavailable"} then fallback else code
  }

  lemma {:induction false} FailStreakMeans(h: seq<Record>, k: nat)
    ensures FailStreak(h) >= k <==> |h| >= k && forall i | |h| - k <= i < |h| :: h[i].outcome.Failure?
    decreases |h|
  {
    if k > 0 && h != [] {
      var before := h[..|h| - 1];
      FailStreakMeans(before, k - 1);
    }
  }

  /** The last five records are failures, and the last of them is less than thirty seconds old. */
  lemma TrippedMeans(h: seq<Record>, now: nat)
    ensures Tripped(h, now) <==>
      && |h| >= 5 && (forall i | |h| - 5 <= i < |h| :: h[i].outcome.Failure?)
      && now < h[|h| - 1].at + 30
  {
    FailStreakMeans(h, 5);
  }

  /** Nothing recorded, or a failure without a code or from an unavailable upstream: what the caller falls back on. */
  lemma HealthMeans(h: seq<Record>, fallback: string)
    ensures h == [] ==> HealthOf(h, fallback) == fallback
    ensures h != [] && h[|h| - 1].outcome.Success? ==> HealthOf(h, fallback) == "ok"
    ensures h != [] && h[|h| - 1].outcome.Failure? ==>
      var code := h[|h| - 1].outcome.code;
      HealthOf(h, fallback) == if code == "" || code == "upstream_unavailable" then fallback else code
  {
  }

  predicate Refines(b: Breaker, h: seq<Record>) {
    && b.fails == FailStreak(h)
    && b.openUntil == (if FailStreak(h) >= MAX_FAILURES then h[|h| - 1].at + OPEN_SECONDS else 0)
    && b.health == (if h == [] then "upstream_unavailable" else if h[|h| - 1].outcome.Success? then "ok" else h[|h| - 1].outcome.code)
  }

  lemma RecordRefines(b: Breaker, h: seq<Record>, outcome: Outcome, now: nat)
    requires Refines(b, h)
    ensures Refines(Recorded(b, outcome, now), h + [Record(outcome, now)])
  {
  }

  lemma {:induction false} BreakerRefinesHistory(events: seq<Event>)
    ensures Refines(Run(events).breaker, History(events))
  {
    if events != [] {
      var before, e := events[..|events| - 1], events[|events| - 1];
      BreakerRefinesHistory(before);
      if Records(Run(before), e) {
        RecordRefines(Run(before).breaker, History(before), e.outcome.value, e.now);
      }
    }
  }

  /** Open exactly while five failures or more stand since the last success and the last failure is less
      than thirty seconds old. */
  lemma OpenIff(events: seq<Event>, now: nat)
    ensures IsOpen(Run(events).breaker, now) <==> Tripped(History(events), now)
    ensures var h := History(events);
      IsOpen(Run(events).breaker, now) <==> FailStreak(h) >= 5 && now < h[|h| - 1].at + 30
  {
    BreakerRefinesHistory(events);
  }

  /** An idle thread's begin is granted exactly when no run is under way and the breaker is not open. */
  lemma BeginGrantedIff(events: seq<Event>, t: nat, now: nat)
    requires !Busy(Run(events), t)
    ensures var s := Run(events);
      t in Next(s, Begin(t, now)).syncing <==> s.syncing + s.ending == {} && !Tripped(History(events), now)
  {
    RunIsExclusive(events);
    OpenIff(events, now);
  }

  /** No thread is at two places at once. */
  predicate AtOnePlace(s: System) {
    s.syncing !! s.ending && s.syncing !! s.probing && s.ending !! s.probing
  }

  lemma {:induction false} EveryThreadIsAtOnePlace(events: seq<Event>)
    ensures AtOnePlace(Run(events))
  {
    if events != [] {
      EveryThreadIsAtOnePlace(events[..|events| - 1]);
      RunIsExclusive(events[..|events| - 1]);
    }
  }

  /** A heartbeat or an interactive request of an idle thread goes to the upstream exactly when the breaker is not
      open, whatever else is under way; it counts until its report, and reports once. */
  lemma CheckGrantedIff(events: seq<Event>, t: nat, now: nat, outcome: Option<Outcome>)
    ensures var s := Run(events);
      && (t in Next(s, Check(t, now)).probing <==> t in s.probing || (t !in s.syncing + s.ending && !Tripped(History(events), now)))
      && Next(s, Check(t, now)).syncing == s.syncing && Next(s, Check(t, now)).breaker == s.breaker
      && t !in Next(s, Report(t, outcome, now)).probing
      && (t !in s.probing ==> Next(s, Report(t, outcome, now)) == s)
  {
    OpenIff(events, now);
  }

  /** A thread with a run or a probe under way begins nothing else. */
  lemma BusyThreadsBeginNothing(s: System, t: nat, now: nat)
    requires t in s.syncing || t in s.ending || t in s.probing
    ensures Next(s, Begin(t, now)) == s && Next(s, Check(t, now)) == s
  {
  }

  /** The breaker is half open once the thirty seconds have passed: one more failure opens it again at once,
      one success closes it for good. */
  lemma {:induction false} HalfOpen(events: seq<Event>, e: Event, later: nat)
    requires FailStreak(History(events)) >= 5 && Records(Run(events), e)
    ensures IsOpen(Next(Run(events), e).breaker, later) <==> e.outcome.value.Failure? && later < e.now + 30
  {
    BreakerRefinesHistory(events);
  }

  /** The health reported without a probe is the last recorded failure, unless that was an unavailable
      upstream: that one reads like no failure at all. */
  lemma {:induction false} ReportedHealth(events: seq<Event>)
    ensures CurrentHealth(Run(events).breaker, "ok") == HealthOf(History(events), "ok")
  {
    BreakerRefinesHistory(events);
  }

  const OUTAGE := Failure("upstream_unavailable")

  /** Thread 0 begins, fails on an unavailable upstream and ends, so many times over. */
  function Outages(n: nat): seq<Event> {
    if n == 0 then [] else Outages(n - 1) + [Begin(0, 0)] + [SyncDone(0, Some(OUTAGE), 0)] + [End(0)]
  }

  function Idle(fails: nat, openUntil: nat): System {
    System(Breaker(fails, openUntil, "upstream_unavailable", false), {}, {}, {})
  }

  lemma OneOutage(fails: nat)
    requires fails < MAX_FAILURES
    ensures Next(Next(Next(Idle(fails, 0), Begin(0, 0)), SyncDone(0, Some(OUTAGE), 0)), End(0))
      == Idle(fails + 1, if fails + 1 >= MAX_FAILURES then OPEN_SECONDS else 0)
  {
    assert {} + {0} - {0} == {};
  }

  lemma RunAppend(events: seq<Event>, e: Event)
    ensures Run(events + [e]) == Next(Run(events), e)
  {
    assert (events + [e])[..|events|] == events;
  }

  lemma RunThree(events: seq<Event>, a: Event, b: Event, e: Event)
    ensures Run(events + [a] + [b] + [e]) == Next(Next(Next(Run(events), a), b), e)
  {
    RunAppend(events, a);
    RunAppend(events + [a], b);
    RunAppend(events + [a] + [b], e);
  }

  lemma {:induction false} OutagesRun(n: nat)
    requires n <= MAX_FAILURES
    ensures Run(Outages(n)) == Idle(n, if n >= MAX_FAILURES then OPEN_SECONDS else 0)
  {
    if n > 0 {
      OutagesRun(n - 1);
      OneOutage(n - 1);
      RunThree(Outages(n - 1), Begin(0, 0), SyncDone(0, Some(OUTAGE), 0), End(0));
    }
  }

  /** One outage, and the operation reports itself healthy; five, and it still does, with the breaker open. */
  lemma OutageReadsHealthy(n: nat)
    requires 1 <= n <= 5
    ensures FailStreak(History(Outages(n))) == n
    ensures CurrentHealth(Run(Outages(n)).breaker, "ok") == "ok"
    ensures IsOpen(Run(Outages(n)).breaker, 0) <==> n == 5
  {
    OutagesRun(n);
    BreakerRefinesHistory(Outages(n));
  }

  /** `history` is what has been recorded, in the order the mutex was taken. */
  class OperationState {
    var consecutiveFails: nat
    var openUntil: nat
    var healthCode: string
    var running: bool
    ghost var history: seq<Record>

    function View(): Breaker
      reads this
    {
      Breaker(consecutiveFails, openUntil, healthCode, running)
    }

    ghost predicate Valid()
      reads this
    {
      Refines(View(), history)
    }

    constructor ()
      ensures Valid() && history == [] && !running
    {
      consecutiveFails, openUntil, healthCode, running := 0, 0, "upstream_unavailable", false;
      history := [];
    }

    method IsOpenNow(now: nat) returns (open: bool)
      requires Valid()
      ensures open <==> Tripped(history, now)
    {
      return openUntil > now;
    }

    /** Test and set in one step. */
    method BeginRun(now: nat) returns (granted: bool)
      requires Valid()
      modifies this`running
      ensures Valid()
      ensures granted <==> !old(running) && !Tripped(history, now)
      ensures running <==> granted || old(running)
    {
      if running || openUntil > now {
        return false;
      }
      running := true;
      return true;
    }

    method EndRun()
      requires Valid()
      modifies this`running
      ensures Valid() && !running
    {
      running := false;
    }

    /** Closes the breaker at every later moment and leaves a run under way alone. */
    method RecordSuccess(ghost now: nat)
      requires Valid()
      modifies this
      ensures Valid() && history == old(history) + [Record(Success, now)] && running == old(running)
      ensures FailStreak(history) == 0 && forall later: nat :: !Tripped(history, later)
    {
      consecutiveFails := 0;
      openUntil := 0;
      healthCode := "ok";
      history := history + [Record(Success, now)];
      RecordRefines(old(View()), old(history), Success, now);
    }

    /** One failure more in a row; from the fifth on the breaker is open for thirty seconds from now, which is
        read with the mutex held. */
    method RecordFailure(code: string, now: nat)
      requires Valid()
      modifies this
      ensures Valid() && history == old(history) + [Record(Failure(code), now)] && running == old(running)
      ensures FailStreak(history) == FailStreak(old(history)) + 1
      ensures forall later: nat :: Tripped(history, later) <==> FailStreak(old(history)) + 1 >= 5 && later < now + 30
    {
      consecutiveFails := consecutiveFails + 1;
      healthCode := code;
      if consecutiveFails >= MAX_FAILURES {
        openUntil := now + OPEN_SECONDS;
      }
      history := history + [Record(Failure(code), now)];
      RecordRefines(old(View()), old(history), Failure(code), now);
    }

    method ReportHealth(fallback: string) returns (code: string)
      requires Valid()
      ensures code == HealthOf(history, fallback)
    {
      if healthCode == "" || healthCode == "upstream_unavailable" {
        return fallback;
      }
      return healthCode;
    }
  }

  // ---- backoff ----

  /** The number of failures at the end of a list of results. */
  function Streak(results: seq<bool>): nat {
    if results == [] || results[|results| - 1] then 0 else Streak(results[..|results| - 1]) + 1
  }

  /** The wait, in seconds, before polling again after the k-th failure in a row. */
  function PollWait(k: nat): nat {
    if k == 0 then 0 else Pow2(Min(k - 1, 4))
  }

  lemma PollWaits()
    ensures PollWait(0) == 0 && PollWait(1) == 1 && PollWait(2) == 2 && PollWait(3) == 4 && PollWait(4) == 8
    ensures forall k | k >= 5 :: PollWait(k) == 16
  {
  }

  lemma {:induction false} StreakMeans(results: seq<bool>, k: nat)
    ensures Streak(results) >= k <==> |results| >= k && forall i | |results| - k <= i < |results| :: !results[i]
    decreases |results|
  {
    if k > 0 && results != [] {
      StreakMeans(results[..|results| - 1], k - 1);
    }
  }

  /** The waits of a poll worker whose polls answer like `polls`. */
  method RunPollWorker(polls: seq<bool>) returns (waits: seq<nat>)
    ensures |waits| == |polls|
    ensures forall i | 0 <= i < |polls| :: waits[i] == PollWait(Streak(polls[..i + 1]))
  {
    waits := [];
    var backoff: nat := 1;
    PollWaits();
    for i := 0 to |polls|
      invariant |waits| == i
      invariant forall j | 0 <= j < i :: waits[j] == PollWait(Streak(polls[..j + 1]))
      invariant backoff == PollWait(Streak(polls[..i]) + 1)
    {
      assert polls[..i + 1][..i] == polls[..i] && polls[..i + 1][i] == polls[i];
      if !polls[i] {
        waits := waits + [backoff];
        if backoff < 15 {
          backoff := backoff * 2;
        }
      } else {
        backoff := 1;
        waits := waits + [0];
      }
    }
  }

  /** Six failures, a success, a failure. */
  lemma PollWaitsInOrder()
    ensures var polls := [false, false, false, false, false, false, true, false];
      var waits := [1, 2, 4, 8, 16, 16, 0, 1];
      forall i | 0 <= i < 8 :: PollWait(Streak(polls[..i + 1])) == waits[i]
  {
    var polls := [false, false, false, false, false, false, true, false];
    PollWaits();
    StreakIs(polls, 1, 1);
    StreakIs(polls, 2, 2);
    StreakIs(polls, 3, 3);
    StreakIs(polls, 4, 4);
    StreakIs(polls, 5, 5);
    StreakIs(polls, 6, 6);
    StreakIs(polls, 7, 0);
    StreakIs(polls, 8, 1);
  }

  /** The first `n` results end in exactly `k` failures. */
  lemma StreakIs(results: seq<bool>, n: nat, k: nat)
    requires k <= n <= |results| && (forall i | n - k <= i < n :: !results[i]) && (k < n ==> results[n - k - 1])
    ensures Streak(results[..n]) == k
  {
    StreakMeans(results[..n], k);
    StreakMeans(results[..n], k + 1);
  }

  /** The longest retry delay the schedule asks for. */
  function MaximumRetryDelay(interval: nat): nat {
    Min(interval, 360)
  }

  /** The wait, in minutes, after the k-th failed upload in a row. */
  function RetryWait(interval: nat, k: nat, succeededBefore: bool): nat
    requires k >= 1
  {
    if k == 1 && succeededBefore then 15 else Min(15 * Pow2(k - 1), MaximumRetryDelay(interval))
  }

  function DelayAfter(interval: nat, results: seq<bool>, i: nat): nat
    requires i < |results|
  {
    if results[i] then interval else RetryWait(interval, Streak(results[..i + 1]), true in results[..i])
  }

  /** The delays of a roster schedule whose uploads end like `results`: the interval after a success, and
      doubling retries from fifteen minutes, capped, after failures. */
  method RunRosterSchedule(interval: nat, results: seq<bool>) returns (delays: seq<nat>)
    ensures |delays| == |results|
    ensures forall i | 0 <= i < |results| :: delays[i] == DelayAfter(interval, results, i)
  {
    var maximumRetryDelay := Min(interval, 360);
    var retryDelay := Min(15, maximumRetryDelay);
    assert Pow2(0) == 1;
    delays := [];
    for i := 0 to |results|
      invariant |delays| == i
      invariant forall j | 0 <= j < i :: delays[j] == DelayAfter(interval, results, j)
      invariant retryDelay == RetryWait(interval, Streak(results[..i]) + 1, true in results[..i])
    {
      assert results[..i + 1][..i] == results[..i] && results[..i + 1][i] == results[i];
      assert results[..i + 1] == results[..i] + [results[i]];
      var delay := interval;
      if !results[i] {
        delay := retryDelay;
        RetryDoubles(interval, Streak(results[..i]) + 1, true in results[..i]);
        retryDelay := Min(retryDelay * 2, maximumRetryDelay);
      } else {
        retryDelay := 15;
      }
      delays := delays + [delay];
    }
  }

  lemma RetryDoubles(interval: nat, k: nat, succeededBefore: bool)
    requires k >= 1
    ensures Min(RetryWait(interval, k, succeededBefore) * 2, MaximumRetryDelay(interval)) == RetryWait(interval, k + 1, succeededBefore)
  {
  }

  /** Fifteen minutes doubled with every failure, never above the interval or six hours; and fifteen, whatever the
      interval, on the first failure after a success. */
  lemma RetryWaits(interval: nat, k: nat)
    requires k >= 1
    ensures RetryWait(interval, 1, true) == 15
    ensures interval >= 360 && k >= 6 ==> RetryWait(interval, k, false) == RetryWait(interval, k, true) == 360
    ensures interval >= 360 ==>
      && RetryWait(interval, 1, false) == 15 && RetryWait(interval, 2, false) == 30 && RetryWait(interval, 3, false) == 60
      && RetryWait(interval, 4, false) == 120 && RetryWait(interval, 5, false) == 240
    ensures interval < 360 ==> RetryWait(interval, k, false) == Min(15 * Pow2(k - 1), interval)
    ensures k >= 2 ==> RetryWait(interval, k, true) == RetryWait(interval, k, false)
  {
    assert Pow2(0) == 1 && Pow2(1) == 2 && Pow2(2) == 4 && Pow2(3) == 8 && Pow2(4) == 16 && Pow2(5) == 32;
    if k >= 6 {
      PowGrows(5, k - 1);
    }
  }

  /** A schedule of one hour: four failures, a success, two failures. */
  lemma RosterDelaysInOrder()
    ensures var results := [false, false, false, false, true, false, false];
      var delays := [15, 30, 60, 60, 60, 15, 30];
      forall i | 0 <= i < 7 :: DelayAfter(60, results, i) == delays[i]
  {
    var results := [false, false, false, false, true, false, false];
    assert Pow2(0) == 1 && Pow2(1) == 2 && Pow2(2) == 4 && Pow2(3) == 8;
    StreakIs(results, 1, 1);
    StreakIs(results, 2, 2);
    StreakIs(results, 3, 3);
    StreakIs(results, 4, 4);
    StreakIs(results, 6, 1);
    StreakIs(results, 7, 2);
    assert results[..5][4] && results[..6][4];
  }

  /** A retry waits longer than the cap exactly after the first failure that follows a success, on a
      schedule of less than fifteen minutes. */
  lemma RetryExceedsCapIff(interval: nat, k: nat, succeededBefore: bool)
    requires k >= 1
    ensures RetryWait(interval, k, succeededBefore) > Min(interval, 360) <==> k == 1 && succeededBefore && interval < 15
  {
  }

  /** On the shortest schedule that the configuration accepts, five minutes, the first retry after a success
      waits fifteen. */
  lemma ShortScheduleWaitsLonger()
    ensures DelayAfter(5, [true, false], 1) == 15 && MaximumRetryDelay(5) == 5
  {
    assert [true, false][..2] == [true, false] && [true, false][..1] == [true];
    assert Streak([true]) == 0 && Streak([true, false]) == 1;
  }
}
