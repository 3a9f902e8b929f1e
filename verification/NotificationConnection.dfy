/** The notification store's connection: an event stream with reconnection, and polling to fall back on. */
module NotificationConnection {
  import opened Options
  import opened Basics

  const MAX_POLL_FAILURES := 5
  const SSE_INITIAL_RECONNECT_MS := 1000
  const SSE_MAX_RECONNECT_MS := 30000

  /** The store's variables, then what the browser holds for it: the sources that are open, the
      intervals and timeouts that can still fire (a timeout with its wait), the requests in flight. */
  datatype State = State(
    monitoring: bool,
    fallback: bool,
    pollTimer: Option<nat>,
    reconnectTimer: Option<nat>,
    eventSource: Option<nat>,
    delay: nat,
    failures: nat,
    open: set<nat>,
    intervals: set<nat>,
    timeouts: map<nat, nat>,
    fetches: nat,
    next: nat
  )

  datatype Control = ConnectStream | Poll | Stop

  datatype Event =
    | Call(control: Control)
    | Opened(source: nat)
    | Errored(source: nat)
    | Payload(source: nat, valid: bool, refetch: bool)
    | PollTick(timer: nat)
    | ReconnectDue(timer: nat)
    | Fetched(ok: bool)

  function Initial(): State {
    State(false, false, None, None, None, SSE_INITIAL_RECONNECT_MS, 0, {}, {}, map[], 0, 0)
  }

  // ---- the store's functions ----

  function WithoutPollTimer(s: State): State {
    if s.pollTimer.None? then s else s.(intervals := s.intervals - {s.pollTimer.value}, pollTimer := None)
  }

  function WithoutReconnectTimer(s: State): State {
    if s.reconnectTimer.None? then s
    else s.(timeouts := s.timeouts - {s.reconnectTimer.value}, reconnectTimer := None)
  }

  function WithoutSource(s: State, source: Option<nat>): State {
    var target := if source.Some? then source else s.eventSource;
    if target.None? then s
    else s.(open := s.open - {target.value}, eventSource := if source.None? || s.eventSource == source then None else s.eventSource)
  }

  function WithoutFallback(s: State): State {
    WithoutPollTimer(s.(fallback := false))
  }

  function WithFallback(s: State): State {
    var d := WithoutFallback(s);
    d.(fallback := true, failures := 0, fetches := d.fetches + 1, pollTimer := Some(d.next), intervals := d.intervals + {d.next}, next := d.next + 1)
  }

  function WithReconnect(s: State): State {
    if !s.monitoring || s.reconnectTimer.Some? then s
    else s.(
      delay := Min(s.delay * 2, SSE_MAX_RECONNECT_MS),
      reconnectTimer := Some(s.next),
      timeouts := s.timeouts[s.next := s.delay],
      next := s.next + 1)
  }

  function AfterLoss(s: State, source: nat): State {
    WithReconnect(WithFallback(WithoutSource(s, Some(source))))
  }

  function AfterPayloadError(s: State, source: nat): State {
    var d := s.(failures := s.failures + 1);
    if d.failures >= MAX_POLL_FAILURES then AfterLoss(d, source) else d
  }

  function AfterStartPolling(s: State): State {
    WithFallback(WithoutSource(WithoutReconnectTimer(s.(monitoring := true)), None).(delay := SSE_INITIAL_RECONNECT_MS))
  }

  function AfterStopPolling(s: State): State {
    WithoutSource(WithoutReconnectTimer(WithoutFallback(s.(monitoring := false))), None).(delay := SSE_INITIAL_RECONNECT_MS, failures := 0)
  }

  /** new EventSource, held. */
  function WithSource(s: State): State {
    s.(eventSource := Some(s.next), open := s.open + {s.next}, next := s.next + 1)
  }

  /** `available` is whether the browser has EventSource. */
  function AfterConnect(s: State, available: bool): State {
    var d := WithoutReconnectTimer(s.(monitoring := true));
    if !available then WithFallback(d)
    else
      var c := WithoutSource(if d.fallback then d else d.(fetches := d.fetches + 1), None);
      WithSource(c)
  }

  function AfterOpen(s: State, source: nat): State {
    if s.eventSource != Some(source) then s
    else WithoutFallback(s.(delay := SSE_INITIAL_RECONNECT_MS, failures := 0))
  }

  function AfterError(s: State, source: nat): State {
    if !s.monitoring || s.eventSource != Some(source) then s else AfterLoss(s, source)
  }

  function AfterPayload(s: State, source: nat, valid: bool, refetch: bool): State {
    var d := if valid then s.(failures := 0) else AfterPayloadError(s, source);
    if refetch then d.(fetches := d.fetches + 1) else d
  }

  function AfterPollTick(s: State): State {
    if !s.monitoring || !s.fallback then WithoutFallback(s) else s.(fetches := s.fetches + 1)
  }

  function AfterReconnect(s: State, timer: nat, available: bool): State {
    var d := s.(timeouts := s.timeouts - {timer}, reconnectTimer := None);
    if !d.monitoring then d else AfterConnect(d, available)
  }

  function AfterFetched(s: State, ok: bool): State
    requires s.fetches > 0
  {
    var d := s.(fetches := s.fetches - 1);
    if ok then d.(failures := 0)
    else
      var f := d.(failures := d.failures + 1);
      if f.failures >= MAX_POLL_FAILURES && f.fallback then WithoutFallback(f) else f
  }

  // ---- all runs ----

  /** Closed sources and cleared timers fire nothing. */
  function Next(s: State, e: Event, available: bool): State {
    match e
    case Call(c) =>
      (match c case ConnectStream => AfterConnect(s, available) case Poll => AfterStartPolling(s) case Stop => AfterStopPolling(s))
    case Opened(source) => if source in s.open then AfterOpen(s, source) else s
    case Errored(source) => if source in s.open then AfterError(s, source) else s
    case Payload(source, valid, refetch) => if source in s.open then AfterPayload(s, source, valid, refetch) else s
    case PollTick(timer) => if timer in s.intervals then AfterPollTick(s) else s
    case ReconnectDue(timer) => if timer in s.timeouts then AfterReconnect(s, timer, available) else s
    case Fetched(ok) => if s.fetches > 0 then AfterFetched(s, ok) else s
  }

  function Run(events: seq<Event>, available: bool): State {
    if events == [] then Initial() else Next(Run(events[..|events| - 1], available), events[|events| - 1], available)
  }

  function LastCall(events: seq<Event>): Option<Control> {
    if events == [] then None
    else if events[|events| - 1].Call? then Some(events[|events| - 1].control)
    else LastCall(events[..|events| - 1])
  }

  function Only(x: Option<nat>): set<nat> {
    if x.Some? then {x.value} else {}
  }

  /** Whatever is open or pending is what the store's variables name. */
  predicate NothingLeaks(s: State) {
    && s.open == Only(s.eventSource)
    && s.intervals == Only(s.pollTimer)
    && s.timeouts.Keys == Only(s.reconnectTimer)
    && (s.fallback <==> s.pollTimer.Some?)
  }

  /** Whatever is opened or started next is none of these. */
  predicate IdsAreUsed(s: State) {
    && (forall x | x in s.open :: x < s.next) && (forall x | x in s.intervals :: x < s.next)
    && (forall x | x in s.timeouts :: x < s.next)
  }

  /** What runs in each mode. */
  predicate InMode(s: State, available: bool, mode: Option<Control>) {
    match mode
    case Some(ConnectStream) =>
      s.monitoring && (if available then s.eventSource.Some? != s.reconnectTimer.Some? else s.eventSource.None? && s.reconnectTimer.None?)
    case Some(Poll) => s.monitoring && s.eventSource.None? && s.reconnectTimer.None?
    case _ => !s.monitoring && !s.fallback && s.eventSource.None? && s.reconnectTimer.None?
  }

  /** The wait before the k-th attempt in a row. */
  function Backoff(k: nat): nat
    requires k >= 1
  {
    Min(SSE_INITIAL_RECONNECT_MS * Pow2(k - 1), SSE_MAX_RECONNECT_MS)
  }

  function LossesAfter(s: State, e: Event, available: bool, losses: nat): nat {
    if e == Call(Poll) || e == Call(Stop) || (e.Opened? && e.source in s.open) then 0
    else if s.eventSource.Some? && Next(s, e, available).eventSource.None? then losses + 1
    else losses
  }

  /** How many times in a row the stream was lost, without an opened stream or a new start in between. */
  function Losses(events: seq<Event>, available: bool): nat {
    if events == [] then 0
    else LossesAfter(Run(events[..|events| - 1], available), events[|events| - 1], available, Losses(events[..|events| - 1], available))
  }

  /** One timeout is pending, with this wait. */
  predicate IsDue(timeouts: map<nat, nat>, wait: nat) {
    |timeouts| == 1 && forall t | t in timeouts :: timeouts[t] == wait
  }

  predicate DelayIs(s: State, losses: nat) {
    && s.delay == Backoff(losses + 1)
    && (forall t | t in s.timeouts :: losses >= 1 && s.timeouts[t] == Backoff(losses))
  }

  predicate Inv(s: State, available: bool, mode: Option<Control>, losses: nat) {
    NothingLeaks(s) && InMode(s, available, mode) && DelayIs(s, losses)
  }

  lemma BackoffDoubles(k: nat)
    requires k >= 1
    ensures Min(Backoff(k) * 2, SSE_MAX_RECONNECT_MS) == Backoff(k + 1)
  {
  }

  /** One second, two, four, eight, sixteen, then thirty for ever. */
  lemma BackoffWaits(k: nat)
    ensures Backoff(1) == 1000 && Backoff(2) == 2000 && Backoff(3) == 4000 && Backoff(4) == 8000 && Backoff(5) == 16000
    ensures k >= 6 ==> Backoff(k) == 30000
  {
    assert Pow2(0) == 1 && Pow2(1) == 2 && Pow2(2) == 4 && Pow2(3) == 8 && Pow2(4) == 16;
    if k >= 6 {
      PowGrows(5, k - 1);
      assert Pow2(5) == 32;
    }
  }

  lemma BackoffStarts()
    ensures Backoff(1) == SSE_INITIAL_RECONNECT_MS
  {
  }

  lemma CallKeepsInv(s: State, c: Control, available: bool, mode: Option<Control>, losses: nat)
    requires Inv(s, available, mode, losses)
    ensures Inv(Next(s, Call(c), available), available, Some(c), LossesAfter(s, Call(c), available, losses))
  {
    BackoffStarts();
  }

  /** The source that reports is the one the store holds, and the mode is the stream's. */
  lemma OpenIsHeld(s: State, source: nat, available: bool, mode: Option<Control>, losses: nat)
    requires Inv(s, available, mode, losses) && source in s.open
    ensures s.eventSource == Some(source) && s.reconnectTimer == None && s.timeouts == map[]
    ensures available && mode == Some(ConnectStream)
  {
  }

  lemma LosingKeepsInv(s: State, source: nat, available: bool, mode: Option<Control>, losses: nat)
    requires Inv(s, available, mode, losses) && source in s.open
    ensures Inv(AfterLoss(s, source), available, mode, losses + 1)
    ensures AfterLoss(s, source).eventSource == None && AfterLoss(s, source).fallback && AfterLoss(s, source).failures == 0
  {
  }

  lemma OpenedKeepsInv(s: State, source: nat, available: bool, mode: Option<Control>, losses: nat)
    requires Inv(s, available, mode, losses) && source in s.open
    ensures Inv(AfterOpen(s, source), available, mode, 0) && AfterOpen(s, source).eventSource == s.eventSource
  {
    OpenIsHeld(s, source, available, mode, losses);
    BackoffStarts();
  }

  lemma SourceEventKeepsInv(s: State, e: Event, available: bool, mode: Option<Control>, losses: nat)
    requires Inv(s, available, mode, losses) && (e.Opened? || e.Errored? || e.Payload?) && e.source in s.open
    ensures Inv(Next(s, e, available), available, mode, LossesAfter(s, e, available, losses))
  {
    OpenIsHeld(s, e.source, available, mode, losses);
    if e.Opened? {
      OpenedKeepsInv(s, e.source, available, mode, losses);
    } else if e.Errored? {
      LosingKeepsInv(s, e.source, available, mode, losses);
    } else if e.Payload? && !e.valid && s.failures + 1 >= MAX_POLL_FAILURES {
      LosingKeepsInv(s.(failures := s.failures + 1), e.source, available, mode, losses);
    }
  }

  lemma PollEventKeepsInv(s: State, e: Event, available: bool, mode: Option<Control>, losses: nat)
    requires Inv(s, available, mode, losses) && (e.PollTick? || e.Fetched?)
    ensures Inv(Next(s, e, available), available, mode, LossesAfter(s, e, available, losses))
  {
  }

  lemma ReconnectKeepsInv(s: State, timer: nat, available: bool, mode: Option<Control>, losses: nat)
    requires Inv(s, available, mode, losses)
    ensures var e := ReconnectDue(timer); Inv(Next(s, e, available), available, mode, LossesAfter(s, e, available, losses))
  {
    assert timer in s.timeouts ==> timer in s.timeouts.Keys && s.timeouts.Keys == {timer};
  }

  lemma TimerEventKeepsInv(s: State, e: Event, available: bool, mode: Option<Control>, losses: nat)
    requires Inv(s, available, mode, losses) && (e.PollTick? || e.ReconnectDue? || e.Fetched?)
    ensures Inv(Next(s, e, available), available, mode, LossesAfter(s, e, available, losses))
  {
    if e.ReconnectDue? {
      ReconnectKeepsInv(s, e.timer, available, mode, losses);
    } else {
      PollEventKeepsInv(s, e, available, mode, losses);
    }
  }

  lemma {:induction false} RunKeepsInv(events: seq<Event>, available: bool)
    ensures Inv(Run(events, available), available, LastCall(events), Losses(events, available))
  {
    if events == [] {
      BackoffStarts();
    } else {
      var before, e := events[..|events| - 1], events[|events| - 1];
      RunKeepsInv(before, available);
      var s := Run(before, available);
      if e.Call? {
        CallKeepsInv(s, e.control, available, LastCall(before), Losses(before, available));
      } else if e.PollTick? || e.ReconnectDue? || e.Fetched? {
        TimerEventKeepsInv(s, e, available, LastCall(before), Losses(before, available));
      } else if e.source in s.open {
        SourceEventKeepsInv(s, e, available, LastCall(before), Losses(before, available));
      }
    }
  }

  predicate UsesIds(s: State, t: State) {
    IdsAreUsed(t) && s.next <= t.next
  }

  lemma PiecesUseIds(s: State, source: Option<nat>)
    requires IdsAreUsed(s)
    ensures UsesIds(s, WithoutReconnectTimer(s)) && UsesIds(s, WithoutSource(s, source)) && UsesIds(s, WithoutFallback(s))
    ensures UsesIds(s, WithReconnect(s)) && UsesIds(s, WithSource(s))
  {
  }

  lemma FallbackUsesIds(s: State)
    requires IdsAreUsed(s)
    ensures UsesIds(s, WithFallback(s))
  {
    PiecesUseIds(s, None);
  }

  lemma LossUsesIds(s: State, source: nat)
    requires IdsAreUsed(s)
    ensures UsesIds(s, AfterLoss(s, source))
  {
    var a := WithoutSource(s, Some(source));
    PiecesUseIds(s, Some(source));
    FallbackUsesIds(a);
    PiecesUseIds(WithFallback(a), None);
  }

  lemma ConnectUsesIds(s: State, available: bool)
    requires IdsAreUsed(s)
    ensures UsesIds(s, AfterConnect(s, available))
  {
    var a := s.(monitoring := true);
    PiecesUseIds(a, None);
    var d := WithoutReconnectTimer(a);
    FallbackUsesIds(d);
    var e := if d.fallback then d else d.(fetches := d.fetches + 1);
    PiecesUseIds(e, None);
    PiecesUseIds(WithoutSource(e, None), None);
  }

  lemma PollUsesIds(s: State)
    requires IdsAreUsed(s)
    ensures UsesIds(s, AfterStartPolling(s))
  {
    var a := WithoutReconnectTimer(s.(monitoring := true));
    PiecesUseIds(s.(monitoring := true), None);
    PiecesUseIds(a, None);
    FallbackUsesIds(WithoutSource(a, None).(delay := SSE_INITIAL_RECONNECT_MS));
  }

  lemma StopUsesIds(s: State)
    requires IdsAreUsed(s)
    ensures UsesIds(s, AfterStopPolling(s))
  {
    var a := WithoutFallback(s.(monitoring := false));
    PiecesUseIds(s.(monitoring := false), None);
    PiecesUseIds(a, None);
    PiecesUseIds(WithoutReconnectTimer(a), None);
  }

  lemma CallUsesIds(s: State, c: Control, available: bool)
    requires IdsAreUsed(s)
    ensures UsesIds(s, Next(s, Call(c), available))
  {
    match c
    case ConnectStream => ConnectUsesIds(s, available);
    case Poll => PollUsesIds(s);
    case Stop => StopUsesIds(s);
  }

  lemma OpenUsesIds(s: State, source: nat)
    requires IdsAreUsed(s)
    ensures UsesIds(s, AfterOpen(s, source)) && UsesIds(s, AfterError(s, source))
  {
    PiecesUseIds(s.(delay := SSE_INITIAL_RECONNECT_MS, failures := 0), None);
    LossUsesIds(s, source);
  }

  lemma PayloadErrorUsesIds(s: State, source: nat)
    requires IdsAreUsed(s)
    ensures UsesIds(s, AfterPayloadError(s, source))
  {
    var d := s.(failures := s.failures + 1);
    assert IdsAreUsed(d);
    LossUsesIds(d, source);
  }

  lemma PayloadUsesIds(s: State, source: nat, valid: bool, refetch: bool)
    requires IdsAreUsed(s)
    ensures UsesIds(s, AfterPayload(s, source, valid, refetch))
  {
    PayloadErrorUsesIds(s, source);
  }

  lemma TickUsesIds(s: State)
    requires IdsAreUsed(s)
    ensures UsesIds(s, AfterPollTick(s))
  {
    PiecesUseIds(s, None);
  }

  lemma ReconnectUsesIds(s: State, timer: nat, available: bool)
    requires IdsAreUsed(s)
    ensures UsesIds(s, AfterReconnect(s, timer, available))
  {
    ConnectUsesIds(s.(timeouts := s.timeouts - {timer}, reconnectTimer := None), available);
  }

  lemma FetchUsesIds(s: State, ok: bool)
    requires IdsAreUsed(s) && s.fetches > 0
    ensures UsesIds(s, AfterFetched(s, ok))
  {
    PiecesUseIds(s.(fetches := s.fetches - 1, failures := s.failures + 1), None);
  }

  lemma NextUsesIds(s: State, e: Event, available: bool)
    requires IdsAreUsed(s)
    ensures UsesIds(s, Next(s, e, available))
  {
    match e
    case Call(c) => CallUsesIds(s, c, available);
    case Opened(source) => OpenUsesIds(s, source);
    case Errored(source) => OpenUsesIds(s, source);
    case Payload(source, valid, refetch) => PayloadUsesIds(s, source, valid, refetch);
    case PollTick(_) => TickUsesIds(s);
    case ReconnectDue(timer) => ReconnectUsesIds(s, timer, available);
    case Fetched(ok) =>
      if s.fetches > 0 {
        FetchUsesIds(s, ok);
      }
  }

  /** No identifier of a source or timer is used twice: what is open or pending has one already given out, and the
      next to be given out only grows. */
  lemma {:induction false} RunUsesIds(events: seq<Event>, available: bool)
    ensures IdsAreUsed(Run(events, available))
  {
    if events != [] {
      RunUsesIds(events[..|events| - 1], available);
      NextUsesIds(Run(events[..|events| - 1], available), events[|events| - 1], available);
    }
  }

  predicate Watched(s: State, available: bool, mode: Option<Control>) {
    && s.open == Only(s.eventSource) && |s.open| <= 1
    && s.intervals == Only(s.pollTimer) && (s.fallback <==> s.intervals != {})
    && (s.monitoring <==> mode in {Some(ConnectStream), Some(Poll)})
    && (!s.monitoring ==> s.open == {} && s.intervals == {} && s.timeouts == map[])
  }

  lemma InvIsWatched(s: State, available: bool, mode: Option<Control>, losses: nat)
    requires Inv(s, available, mode, losses)
    ensures Watched(s, available, mode)
  {
    assert s.timeouts.Keys == {} ==> s.timeouts == map[];
  }

  /** At most one source is open and it is the one held; a poll timer runs exactly while the fallback is
      on; and nothing at all runs unless monitoring was asked for and not stopped since. */
  lemma {:induction false} NothingRunsUnwatched(events: seq<Event>, available: bool)
    ensures var s := Run(events, available);
      && s.open == Only(s.eventSource) && |s.open| <= 1
      && s.intervals == Only(s.pollTimer) && (s.fallback <==> s.intervals != {})
      && (s.monitoring <==> LastCall(events) in {Some(ConnectStream), Some(Poll)})
      && (!s.monitoring ==> s.open == {} && s.intervals == {} && s.timeouts == map[])
  {
    RunKeepsInv(events, available);
    InvIsWatched(Run(events, available), available, LastCall(events), Losses(events, available));
  }

  /** When the reconnect comes due a source is open again. */
  lemma {:induction false} ReconnectOpens(events: seq<Event>, timer: nat)
    requires LastCall(events) == Some(ConnectStream) && timer in Run(events, true).timeouts
    ensures var s := Next(Run(events, true), ReconnectDue(timer), true); |s.open| == 1 && s.timeouts == map[]
  {
    RunKeepsInv(events, true);
    TimerEventKeepsInv(Run(events, true), ReconnectDue(timer), true, LastCall(events), Losses(events, true));
    var s := Next(Run(events, true), ReconnectDue(timer), true);
    assert s.timeouts.Keys == {};
  }

  // ---- polling can give up ----

  predicate Loses(s: State, e: Event, available: bool) {
    s.eventSource.Some? && Next(s, e, available).eventSource.None?
  }

  /** Failed fetches in a row since the last successful one, the last call or the last loss of the stream. */
  function FailStreak(events: seq<Event>, available: bool): nat {
    if events == [] then 0
    else
      var before, e := events[..|events| - 1], events[|events| - 1];
      var s := Run(before, available);
      if e.Call? || Loses(s, e, available) then 0
      else if e.Fetched? && s.fetches > 0 then (if e.ok then 0 else FailStreak(before, available) + 1)
      else FailStreak(before, available)
  }

  /** Since the last call or loss, five fetches in a row have failed at some moment. */
  function GaveUp(events: seq<Event>, available: bool): bool {
    if events == [] then false
    else
      var before, e := events[..|events| - 1], events[|events| - 1];
      if e.Call? || Loses(Run(before, available), e, available) then false
      else GaveUp(before, available) || FailStreak(events, available) >= MAX_POLL_FAILURES
  }

  /** Whenever no source is open, the failures counted are those in a row, and the fallback runs unless it
      has given up. */
  predicate PollsUntilGivenUp(s: State, streak: nat, gaveUp: bool) {
    s.monitoring && s.eventSource.None? ==> s.failures == streak && (s.fallback <==> !gaveUp)
  }

  lemma PollingCall(s: State, c: Control, available: bool, mode: Option<Control>, losses: nat)
    requires Inv(s, available, mode, losses)
    ensures PollsUntilGivenUp(Next(s, Call(c), available), 0, false)
  {
  }

  lemma PollingLoss(s: State, e: Event, available: bool, mode: Option<Control>, losses: nat)
    requires Inv(s, available, mode, losses) && !e.Call? && Loses(s, e, available)
    ensures PollsUntilGivenUp(Next(s, e, available), 0, false)
  {
  }

  /** With no source open, only fetches that come back change the count, and only five failures end polling. */
  lemma PollingStep(s: State, e: Event, available: bool, mode: Option<Control>, losses: nat)
    requires Inv(s, available, mode, losses) && s.eventSource.None? && s.monitoring && !e.Call?
    ensures var t := Next(s, e, available);
      t.eventSource.Some? ||
      if e.Fetched? && s.fetches > 0
      then t.failures == (if e.ok then 0 else s.failures + 1) && t.fallback == (s.fallback && t.failures < MAX_POLL_FAILURES)
      else t.failures == s.failures && t.fallback == s.fallback
  {
    assert s.open == {};
    assert available || s.timeouts.Keys == {};
  }

  lemma {:induction false} PollingFacts(events: seq<Event>, available: bool)
    ensures PollsUntilGivenUp(Run(events, available), FailStreak(events, available), GaveUp(events, available))
  {
    if events != [] {
      var before, e := events[..|events| - 1], events[|events| - 1];
      var s, mode, losses := Run(before, available), LastCall(before), Losses(before, available);
      PollingFacts(before, available);
      RunKeepsInv(before, available);
      if e.Call? {
        PollingCall(s, e.control, available, mode, losses);
      } else if Loses(s, e, available) {
        PollingLoss(s, e, available, mode, losses);
      } else if s.eventSource.None? && s.monitoring {
        PollingStep(s, e, available, mode, losses);
      } else {
        NotMonitoredStays(s, e, available, mode, losses);
      }
    }
  }

  /** Without a call nothing starts: a stopped store stays stopped, and an open source that is not lost
      stays. */
  lemma NotMonitoredStays(s: State, e: Event, available: bool, mode: Option<Control>, losses: nat)
    requires Inv(s, available, mode, losses) && !e.Call? && !Loses(s, e, available)
    requires s.eventSource.Some? || !s.monitoring
    ensures !Next(s, e, available).monitoring || Next(s, e, available).eventSource.Some?
  {
    assert !s.monitoring ==> s.timeouts.Keys == {} && s.open == {};
  }

  /** The stream is never stranded: one source is open, or one reconnect is due after the wait that the
      number of losses in a row asks for, and never both. While the reconnect is due polling runs, unless
      five fetches in a row have failed since the loss. */
  lemma {:induction false} StreamIsNeverStranded(events: seq<Event>)
    requires LastCall(events) == Some(ConnectStream)
    ensures var s := Run(events, true); var k := Losses(events, true);
      || (|s.open| == 1 && s.timeouts == map[])
      || (s.open == {} && k >= 1 && IsDue(s.timeouts, Backoff(k)) && (s.intervals == {} <==> GaveUp(events, true)))
  {
    RunKeepsInv(events, true);
    PollingFacts(events, true);
    var s := Run(events, true);
    if s.reconnectTimer.Some? {
      assert |s.timeouts| == |s.timeouts.Keys| == 1;
      assert s.reconnectTimer.value in s.timeouts.Keys;
    } else {
      assert s.timeouts.Keys == {};
    }
  }

  predicate PollsOnly(mode: Option<Control>, available: bool) {
    mode == Some(Poll) || (mode == Some(ConnectStream) && !available)
  }

  /** Without a stream, monitoring is left with nothing running exactly when five fetches in a row have
      failed since it was started; no later event but a new call brings polling back. */
  lemma {:induction false} PollingIsStrandedIff(events: seq<Event>, available: bool)
    requires PollsOnly(LastCall(events), available)
    ensures var s := Run(events, available);
      s.monitoring && (s.open == {} && s.intervals == {} && s.timeouts == map[] <==> GaveUp(events, available))
  {
    RunKeepsInv(events, available);
    PollingFacts(events, available);
    var s := Run(events, available);
    assert s.timeouts.Keys == {};
  }

  lemma {:induction false} RunSnoc(events: seq<Event>, e: Event, available: bool)
    ensures Run(events + [e], available) == Next(Run(events, available), e, available)
  {
    assert (events + [e])[..|events|] == events;
  }

  lemma {:induction false} HistorySnoc(events: seq<Event>, e: Event, available: bool)
    ensures LastCall(events + [e]) == if e.Call? then Some(e.control) else LastCall(events)
    ensures Losses(events + [e], available) == LossesAfter(Run(events, available), e, available, Losses(events, available))
  {
    assert (events + [e])[..|events|] == events;
  }

  /** Polling started, and `k` times a tick whose fetch fails; the first fetch never answers. */
  function FailingPolls(k: nat): seq<Event> {
    if k == 0 then [Call(Poll)] else FailingPolls(k - 1) + [PollTick(0)] + [Fetched(false)]
  }

  function Polling(failures: nat): State {
    State(true, true, Some(0), None, None, SSE_INITIAL_RECONNECT_MS, failures, {}, {0}, map[], 1, 1)
  }

  lemma FailingTick(k: nat, available: bool)
    requires k < MAX_POLL_FAILURES
    ensures var s := Next(Next(Polling(k), PollTick(0), available), Fetched(false), available);
      if k + 1 < MAX_POLL_FAILURES then s == Polling(k + 1) else s == Polling(k + 1).(fallback := false, pollTimer := None, intervals := {})
  {
  }

  lemma {:induction false} PollingBegins(available: bool)
    ensures Run([Call(Poll)], available) == Polling(0)
  {
    RunSnoc([], Call(Poll), available);
    assert [] + [Call(Poll)] == [Call(Poll)];
  }

  lemma {:induction false} FailingPollsCount(k: nat, available: bool)
    requires k < MAX_POLL_FAILURES
    ensures Run(FailingPolls(k), available) == Polling(k)
  {
    if k == 0 {
      PollingBegins(available);
    } else {
      FailingPollsCount(k - 1, available);
      TwoMore(k - 1, available);
      FailingTick(k - 1, available);
    }
  }

  lemma {:induction false} TwoMore(k: nat, available: bool)
    ensures Run(FailingPolls(k + 1), available) == Next(Next(Run(FailingPolls(k), available), PollTick(0), available), Fetched(false), available)
  {
    RunSnoc(FailingPolls(k), PollTick(0), available);
    RunSnoc(FailingPolls(k) + [PollTick(0)], Fetched(false), available);
  }

  /** A run in which polling stops for good: five ticks whose fetches fail. */
  lemma {:induction false} PollingGivesUp(available: bool)
    ensures var s := Run(FailingPolls(5), available);
      s.monitoring && s.open == {} && s.intervals == {} && s.timeouts == map[]
  {
    FailingPollsCount(4, available);
    TwoMore(4, available);
    FailingTick(4, available);
  }

  // ---- what one event does to a store that has come this far ----

  lemma {:induction false} PollingStarts(events: seq<Event>, s: State, t: State, available: bool)
    requires s == Run(events, available) && t == AfterStartPolling(s)
    ensures t == Run(events + [Call(Poll)], available)
    ensures t.fallback && t.open == {} && t.timeouts == map[] && (exists i :: t.intervals == {i})
    ensures t.monitoring && t.fetches == s.fetches + 1 && t.failures == 0
  {
    RunSnoc(events, Call(Poll), available);
    RunKeepsInv(events, available);
    CallKeepsInv(s, Poll, available, LastCall(events), Losses(events, available));
    assert t.timeouts.Keys == {};
    assert t.intervals == {t.pollTimer.value};
  }

  lemma {:induction false} StopLeavesNothing(events: seq<Event>, s: State, t: State, available: bool)
    requires s == Run(events, available) && t == AfterStopPolling(s)
    ensures t == Run(events + [Call(Stop)], available)
    ensures t.open == {} && t.intervals == {} && t.timeouts == map[]
    ensures !t.monitoring && t.fetches == s.fetches && t.failures == 0
  {
    RunSnoc(events, Call(Stop), available);
    RunKeepsInv(events, available);
    CallKeepsInv(s, Stop, available, LastCall(events), Losses(events, available));
    assert t.timeouts.Keys == {};
  }

  lemma {:induction false} StreamStarts(events: seq<Event>, s: State, t: State, available: bool)
    requires s == Run(events, available) && t == AfterConnect(s, available)
    ensures t == Run(events + [Call(ConnectStream)], available) && t.timeouts == map[]
    ensures if available then |t.open| == 1 && t.intervals == s.intervals
      else t.open == {} && t.fallback && exists i :: t.intervals == {i}
    ensures t.monitoring && t.fetches == s.fetches + (if available && s.fallback then 0 else 1)
    ensures t.failures == if available then s.failures else 0
  {
    RunSnoc(events, Call(ConnectStream), available);
    RunKeepsInv(events, available);
    CallKeepsInv(s, ConnectStream, available, LastCall(events), Losses(events, available));
    assert t.timeouts.Keys == {};
    assert !available ==> t.intervals == {t.pollTimer.value};
  }

  lemma {:induction false} OpeningSettles(events: seq<Event>, s: State, t: State, source: nat, available: bool)
    requires s == Run(events, available) && source in s.open && t == AfterOpen(s, source)
    ensures t == Run(events + [Opened(source)], available) && Losses(events + [Opened(source)], available) == 0
    ensures t.open == {source} && t.intervals == {} && t.timeouts == map[] && t.failures == 0
    ensures t.monitoring && t.fetches == s.fetches
  {
    RunSnoc(events, Opened(source), available);
    HistorySnoc(events, Opened(source), available);
    RunKeepsInv(events, available);
    OpenIsHeld(s, source, available, LastCall(events), Losses(events, available));
  }

  /** Losing the source leaves one reconnect due, after the wait for one loss more, and polling on. */
  lemma LossRecovers(s: State, source: nat, available: bool, mode: Option<Control>, losses: nat)
    requires Inv(s, available, mode, losses) && source in s.open
    ensures var t := AfterLoss(s, source);
      && t.open == {} && t.fallback && (exists i :: t.intervals == {i}) && IsDue(t.timeouts, Backoff(losses + 1))
      && t.monitoring && t.fetches == s.fetches + 1 && t.failures == 0
  {
    OpenIsHeld(s, source, available, mode, losses);
    LosingKeepsInv(s, source, available, mode, losses);
    var t := AfterLoss(s, source);
    assert t.intervals == {t.pollTimer.value};
    assert |t.timeouts| == |t.timeouts.Keys| == 1;
  }

  lemma {:induction false} ErrorRecovers(events: seq<Event>, s: State, t: State, source: nat, available: bool)
    requires s == Run(events, available) && source in s.open && t == AfterError(s, source)
    ensures t == Run(events + [Errored(source)], available)
    ensures t.open == {} && t.fallback && (exists i :: t.intervals == {i}) && IsDue(t.timeouts, Backoff(Losses(events, available) + 1))
    ensures t.monitoring && t.fetches == s.fetches + 1 && t.failures == 0
  {
    RunSnoc(events, Errored(source), available);
    RunKeepsInv(events, available);
    OpenIsHeld(s, source, available, LastCall(events), Losses(events, available));
    LossRecovers(s, source, available, LastCall(events), Losses(events, available));
  }

  lemma PayloadEffect(s: State, source: nat, valid: bool, refetch: bool, available: bool, mode: Option<Control>, losses: nat)
    requires Inv(s, available, mode, losses) && source in s.open
    ensures var t := AfterPayload(s, source, valid, refetch);
      if valid || s.failures + 1 < MAX_POLL_FAILURES
      then t.open == {source} && t.timeouts == map[] && t.failures == (if valid then 0 else s.failures + 1) && t.intervals == s.intervals
      else t.open == {} && t.fallback && (exists i :: t.intervals == {i}) && IsDue(t.timeouts, Backoff(losses + 1)) && t.failures == 0
    ensures var t := AfterPayload(s, source, valid, refetch);
      t.monitoring && t.fetches == s.fetches + (if refetch then 1 else 0) + (if valid || s.failures + 1 < MAX_POLL_FAILURES then 0 else 1)
  {
    OpenIsHeld(s, source, available, mode, losses);
    if !valid {
      LossRecovers(s.(failures := s.failures + 1), source, available, mode, losses);
    }
  }

  /** The fifth failure in a row, and only that, gives the source up. */
  lemma {:induction false} MessageKeepsOrRecovers(events: seq<Event>, s: State, t: State, source: nat, valid: bool, refetch: bool, available: bool)
    requires s == Run(events, available) && source in s.open && t == AfterPayload(s, source, valid, refetch)
    ensures t == Run(events + [Payload(source, valid, refetch)], available)
    ensures if valid || s.failures + 1 < MAX_POLL_FAILURES
      then t.open == {source} && t.timeouts == map[] && t.failures == (if valid then 0 else s.failures + 1) && t.intervals == s.intervals
      else t.open == {} && t.fallback && (exists i :: t.intervals == {i}) && IsDue(t.timeouts, Backoff(Losses(events, available) + 1))
    ensures valid || s.failures + 1 < MAX_POLL_FAILURES || t.failures == 0
    ensures t.monitoring && t.fetches == s.fetches + (if refetch then 1 else 0) + (if valid || s.failures + 1 < MAX_POLL_FAILURES then 0 else 1)
  {
    RunKeepsInv(events, available);
    PayloadEffect(s, source, valid, refetch, available, LastCall(events), Losses(events, available));
    RunSnoc(events, Payload(source, valid, refetch), available);
  }

  /** A poll timer that can still fire always finds monitoring and the fallback on: the tick is a fetch. */
  lemma {:induction false} TickFetches(events: seq<Event>, s: State, t: State, timer: nat, available: bool)
    requires s == Run(events, available) && timer in s.intervals && t == AfterPollTick(s)
    ensures t == Run(events + [PollTick(timer)], available) && t == s.(fetches := s.fetches + 1)
  {
    RunSnoc(events, PollTick(timer), available);
    RunKeepsInv(events, available);
  }

  lemma {:induction false} ReconnectConnects(events: seq<Event>, s: State, t: State, timer: nat, available: bool)
    requires s == Run(events, available) && timer in s.timeouts && t == AfterReconnect(s, timer, available)
    ensures t == Run(events + [ReconnectDue(timer)], available)
    ensures |t.open| == 1 && t.timeouts == map[] && t.intervals == s.intervals
    ensures t.monitoring && t.fetches == s.fetches + (if s.fallback then 0 else 1) && t.failures == s.failures
  {
    RunSnoc(events, ReconnectDue(timer), available);
    RunKeepsInv(events, available);
    assert timer in s.timeouts.Keys;
    assert s.timeouts.Keys == {timer};
    TimerEventKeepsInv(s, ReconnectDue(timer), available, LastCall(events), Losses(events, available));
    assert t.timeouts.Keys == {};
  }

  /** The fifth failure in a row ends polling; nothing else about a fetch that returns does. */
  lemma {:induction false} FetchCounts(events: seq<Event>, s: State, t: State, ok: bool, available: bool)
    requires s == Run(events, available) && s.fetches > 0 && t == AfterFetched(s, ok)
    ensures t == Run(events + [Fetched(ok)], available)
    ensures t.failures == (if ok then 0 else s.failures + 1) && t.open == s.open && t.timeouts == s.timeouts
    ensures t.monitoring == s.monitoring && t.fetches == s.fetches - 1
    ensures t.intervals == if !ok && s.failures + 1 >= MAX_POLL_FAILURES then {} else s.intervals
  {
    RunSnoc(events, Fetched(ok), available);
    RunKeepsInv(events, available);
  }

  // ---- the store ----

  /** `events` is what has happened to the store; the theorems above are about it. */
  class Store {
    const available: bool
    var monitoring: bool
    var fallback: bool
    var pollTimer: Option<nat>
    var reconnectTimer: Option<nat>
    var eventSource: Option<nat>
    var delay: nat
    var failures: nat
    var open: set<nat>
    var intervals: set<nat>
    var timeouts: map<nat, nat>
    var fetches: nat
    var next: nat
    ghost var events: seq<Event>

    function View(): State
      reads this
    {
      State(monitoring, fallback, pollTimer, reconnectTimer, eventSource, delay, failures, open, intervals, timeouts, fetches, next)
    }

    ghost predicate Valid()
      reads this
    {
      View() == Run(events, available)
    }

    /** Polling is on, with one timer. */
    ghost predicate PollsNow()
      reads this
    {
      fallback && exists t :: intervals == {t}
    }

    /** No source is open, one reconnect is due after the next longer wait, and polling is on. */
    ghost predicate Recovering(losses: nat)
      reads this
    {
      open == {} && PollsNow() && IsDue(timeouts, Backoff(losses + 1))
    }

    constructor (available: bool)
      ensures Valid() && events == [] && this.available == available
      ensures !monitoring && open == {} && intervals == {} && timeouts == map[] && fetches == 0 && failures == 0
    {
      this.available := available;
      monitoring, fallback, pollTimer, reconnectTimer, eventSource := false, false, None, None, None;
      delay, failures := SSE_INITIAL_RECONNECT_MS, 0;
      open, intervals, timeouts, fetches, next := {}, {}, map[], 0, 0;
      events := [];
    }

    // ---- what the handlers share ----

    method ClearPollTimer()
      modifies this
      ensures View() == WithoutPollTimer(old(View())) && events == old(events)
    {
      if pollTimer.Some? {
        intervals := intervals - {pollTimer.value};
        pollTimer := None;
      }
    }

    method ClearReconnectTimer()
      modifies this
      ensures View() == WithoutReconnectTimer(old(View())) && events == old(events)
    {
      if reconnectTimer.Some? {
        timeouts := timeouts - {reconnectTimer.value};
        reconnectTimer := None;
      }
    }

    method CloseEventSource(source: Option<nat>)
      modifies this
      ensures View() == WithoutSource(old(View()), source) && events == old(events)
    {
      var target := if source.Some? then source else eventSource;
      if target.None? {
        return;
      }
      open := open - {target.value};
      if source.None? || eventSource == source {
        eventSource := None;
      }
    }

    method StopPollingFallback()
      modifies this
      ensures View() == WithoutFallback(old(View())) && events == old(events)
    {
      fallback := false;
      ClearPollTimer();
    }

    method StartPollingFallback()
      modifies this
      ensures View() == WithFallback(old(View())) && events == old(events)
    {
      StopPollingFallback();
      fallback := true;
      failures := 0;
      fetches := fetches + 1;
      pollTimer := Some(next);
      intervals := intervals + {next};
      next := next + 1;
    }

    method ScheduleReconnect()
      modifies this
      ensures View() == WithReconnect(old(View())) && events == old(events)
    {
      if !monitoring || reconnectTimer.Some? {
        return;
      }
      var wait := delay;
      delay := Min(delay * 2, SSE_MAX_RECONNECT_MS);
      reconnectTimer := Some(next);
      timeouts := timeouts[next := wait];
      next := next + 1;
    }

    method HandleSSEPayloadError(source: nat)
      modifies this
      ensures View() == AfterPayloadError(old(View()), source) && events == old(events)
    {
      failures := failures + 1;
      if failures >= MAX_POLL_FAILURES {
        CloseEventSource(Some(source));
        StartPollingFallback();
        ScheduleReconnect();
      }
    }

    method OpenStream()
      modifies this
      ensures View() == AfterConnect(old(View()), available) && events == old(events)
    {
      monitoring := true;
      ClearReconnectTimer();
      if !available {
        StartPollingFallback();
        return;
      }
      if !fallback {
        fetches := fetches + 1;
      }
      CloseEventSource(None);
      NewEventSource();
    }

    method NewEventSource()
      modifies this
      ensures View() == WithSource(old(View())) && events == old(events)
    {
      open := open + {next};
      eventSource := Some(next);
      next := next + 1;
    }

    method BeginPolling()
      modifies this
      ensures View() == AfterStartPolling(old(View())) && events == old(events)
    {
      monitoring := true;
      ClearReconnectTimer();
      CloseEventSource(None);
      delay := SSE_INITIAL_RECONNECT_MS;
      StartPollingFallback();
    }

    method StopEverything()
      modifies this
      ensures View() == AfterStopPolling(old(View())) && events == old(events)
    {
      monitoring := false;
      StopPollingFallback();
      ClearReconnectTimer();
      CloseEventSource(None);
      delay := SSE_INITIAL_RECONNECT_MS;
      failures := 0;
    }

    method ReadSSEPayload(source: nat, valid: bool, refetch: bool)
      modifies this
      ensures View() == AfterPayload(old(View()), source, valid, refetch) && events == old(events)
    {
      if valid {
        failures := 0;
      } else {
        HandleSSEPayloadError(source);
      }
      if refetch {
        fetches := fetches + 1;
      }
    }

    method Reconnect(timer: nat)
      modifies this
      ensures View() == AfterReconnect(old(View()), timer, available) && events == old(events)
    {
      timeouts := timeouts - {timer};
      reconnectTimer := None;
      if !monitoring {
        return;
      }
      OpenStream();
    }

    method CountFetch(ok: bool)
      requires fetches > 0
      modifies this
      ensures View() == AfterFetched(old(View()), ok) && events == old(events)
    {
      fetches := fetches - 1;
      if ok {
        failures := 0;
      } else {
        failures := failures + 1;
        if failures >= MAX_POLL_FAILURES && fallback {
          StopPollingFallback();
        }
      }
    }

    // ---- calls of the application ----

    method StartPolling()
      requires Valid()
      modifies this
      ensures Valid() && events == old(events) + [Call(Poll)]
      ensures monitoring && PollsNow() && open == {} && timeouts == map[]
      ensures fetches == old(fetches) + 1 && failures == 0
    {
      BeginPolling();
      events := events + [Call(Poll)];
      PollingStarts(old(events), old(View()), View(), available);
    }

    method StopPolling()
      requires Valid()
      modifies this
      ensures Valid() && events == old(events) + [Call(Stop)]
      ensures !monitoring && open == {} && intervals == {} && timeouts == map[]
      ensures fetches == old(fetches) && failures == 0
    {
      StopEverything();
      events := events + [Call(Stop)];
      StopLeavesNothing(old(events), old(View()), View(), available);
    }

    /** A running fallback goes on until the new source opens, and fetches by itself; otherwise the count is fetched
        at once. Without EventSource there is only polling. */
    method ConnectSSE()
      requires Valid()
      modifies this
      ensures Valid() && events == old(events) + [Call(ConnectStream)]
      ensures monitoring && timeouts == map[]
      ensures fetches == old(fetches) + (if available && old(fallback) then 0 else 1)
      ensures failures == if available then old(failures) else 0
      ensures if available then |open| == 1 && intervals == old(intervals) else open == {} && PollsNow()
    {
      OpenStream();
      events := events + [Call(ConnectStream)];
      StreamStarts(old(events), old(View()), View(), available);
    }

    // ---- what the browser reports ----

    /** An open stream ends polling and the run of losses. */
    method OnOpen(source: nat)
      requires Valid() && source in open
      modifies this
      ensures Valid() && events == old(events) + [Opened(source)]
      ensures open == {source} && intervals == {} && timeouts == map[] && Losses(events, available) == 0 && failures == 0
      ensures monitoring && fetches == old(fetches)
    {
      if eventSource == Some(source) {
        delay := SSE_INITIAL_RECONNECT_MS;
        failures := 0;
        StopPollingFallback();
      }
      events := events + [Opened(source)];
      OpeningSettles(old(events), old(View()), View(), source, available);
    }

    method OnError(source: nat)
      requires Valid() && source in open
      modifies this
      ensures Valid() && events == old(events) + [Errored(source)]
      ensures Recovering(Losses(old(events), available))
      ensures monitoring && fetches == old(fetches) + 1 && failures == 0
    {
      if monitoring && eventSource == Some(source) {
        CloseEventSource(Some(source));
        StartPollingFallback();
        ScheduleReconnect();
      }
      events := events + [Errored(source)];
      ErrorRecovers(old(events), old(View()), View(), source, available);
    }

    /** A message; `valid` is whether its reader accepts it, `refetch` whether its kind refetches the count. */
    method OnMessage(source: nat, valid: bool, refetch: bool)
      requires Valid() && source in open
      modifies this
      ensures Valid() && events == old(events) + [Payload(source, valid, refetch)]
      ensures if valid || old(failures) + 1 < 5
        then open == {source} && timeouts == map[] && failures == (if valid then 0 else old(failures) + 1) && intervals == old(intervals)
        else Recovering(Losses(old(events), available)) && failures == 0
      ensures monitoring && fetches == old(fetches) + (if refetch then 1 else 0) + (if valid || old(failures) + 1 < 5 then 0 else 1)
    {
      ReadSSEPayload(source, valid, refetch);
      events := events + [Payload(source, valid, refetch)];
      MessageKeepsOrRecovers(old(events), old(View()), View(), source, valid, refetch, available);
    }

    method PollTimerFires(timer: nat)
      requires Valid() && timer in intervals
      modifies this
      ensures Valid() && events == old(events) + [PollTick(timer)]
      ensures View() == old(View()).(fetches := old(fetches) + 1)
    {
      if !monitoring || !fallback {
        StopPollingFallback();
      } else {
        fetches := fetches + 1;
      }
      events := events + [PollTick(timer)];
      TickFetches(old(events), old(View()), View(), timer, available);
    }

    method ReconnectTimerFires(timer: nat)
      requires Valid() && timer in timeouts
      modifies this
      ensures Valid() && events == old(events) + [ReconnectDue(timer)]
      ensures |open| == 1 && timeouts == map[] && intervals == old(intervals)
      ensures monitoring && fetches == old(fetches) + (if old(fallback) then 0 else 1) && failures == old(failures)
    {
      Reconnect(timer);
      events := events + [ReconnectDue(timer)];
      ReconnectConnects(old(events), old(View()), View(), timer, available);
    }

    method FetchReturns(ok: bool)
      requires Valid() && fetches > 0
      modifies this
      ensures Valid() && events == old(events) + [Fetched(ok)]
      ensures failures == if ok then 0 else old(failures) + 1
      ensures intervals == if !ok && old(failures) + 1 >= 5 then {} else old(intervals)
      ensures open == old(open) && timeouts == old(timeouts) && monitoring == old(monitoring) && fetches == old(fetches) - 1
    {
      CountFetch(ok);
      events := events + [Fetched(ok)];
      FetchCounts(old(events), old(View()), View(), ok, available);
    }
  }
}
