/** Requests that share one session refresh, under de-duplicated GETs. Every promise is a step of its own:
    settling, running its `finally`, and resuming each function that awaits it. */
module SessionClient {
  import opened Options

  const AUTH_REFRESH_PATH := "/api/v1/auth/refresh"

  /** A missing response has status 0. */
  datatype Reply = Reply(status: int, error: Option<int>, data: Option<int>)

  datatype RefreshResult = Refreshed | Unauthorized(status: Option<int>) | Failed(error: int, status: Option<int>)

  /** transport.refresh() in flight; settled, its `finally` still to run; and over. */
  datatype Refresh = Pending | Settled(result: RefreshResult) | Over(result: RefreshResult)

  datatype Answer = Answered(reply: Reply) | Rejected

  datatype Phase = Requesting | Waiting | Retrying | Notifying(answer: Answer) | Done(answer: Answer)

  /** The JSON text of a path and its options; `init` stands for the options' text. */
  datatype Key = Key(path: string, init: int)

  /** One run of performRequest. `requests` and `notified` count calls of transport.request and
      transport.onUnauthorized; `key` is the entry the run holds in the map of GETs in flight. */
  datatype Exec = Exec(
    key: Option<Key>, path: string, phase: Phase, requests: nat, first: Option<Reply>, used: Option<nat>, notified: nat, finalized: bool)

  /** One call of an api method, and what it got. */
  datatype Caller = Caller(exec: nat, answer: Option<Answer>)

  datatype State = State(
    refreshPromise: Option<nat>, refreshes: seq<Refresh>, execs: seq<Exec>, inflight: map<Key, nat>, callers: seq<Caller>)

  datatype Config = Config(enableRefresh: bool, reauthenticate: bool)

  datatype Event =
    | Invoke(path: string, init: int, dedup: bool)
    | Replied(exec: nat, reply: Reply, custom: Option<bool>)
    | RequestFailed(exec: nat)
    | RefreshSettled(result: RefreshResult)
    | RefreshFinally
    | ResumeAfterRefresh(exec: nat)
    | RetryReplied(exec: nat, reply: Reply)
    | Notified(exec: nat, ok: bool)
    | ExecFinally(exec: nat)
    | ResumeCaller(caller: nat)

  function Initial(): State {
    State(None, [], [], map[], [])
  }

  // ---- pure parts ----

  /** `custom` is what transport.shouldRefresh answers, None when the transport has none. */
  predicate ShouldRefresh(config: Config, path: string, status: int, custom: Option<bool>) {
    config.enableRefresh && (if custom.Some? then custom.value else status == 401 && path != AUTH_REFRESH_PATH)
  }

  function RefreshFailureStatus(original: int, refresh: Option<int>): int {
    if refresh.Some? && refresh.value >= 400 then refresh.value else original
  }

  predicate HandlesUnauthorized(config: Config, status: int) {
    status == 401 && config.reauthenticate
  }

  /** What the request answers once its refresh failed. */
  function AfterFailedRefresh(first: Reply, result: RefreshResult): Reply
    requires !result.Refreshed?
  {
    var status := RefreshFailureStatus(first.status, result.status);
    if result.Unauthorized? then first.(status := status) else Reply(status, Some(result.error), None)
  }

  // ---- the steps ----

  function Start(path: string, key: Option<Key>): Exec {
    Exec(key, path, Requesting, 1, None, None, 0, false)
  }

  /** invokeClientMethod: a GET without a signal (`dedup`) joins the one in flight with its key. */
  function OnInvoke(s: State, path: string, init: int, dedup: bool): State {
    var key := if dedup then Some(Key(path, init)) else None;
    if key.Some? && key.value in s.inflight then s.(callers := s.callers + [Caller(s.inflight[key.value], None)])
    else
      var id := |s.execs|;
      s.(execs := s.execs + [Start(path, key)],
         inflight := if key.Some? then s.inflight[key.value := id] else s.inflight,
         callers := s.callers + [Caller(id, None)])
  }

  /** maybeHandleUnauthorized, then return. */
  function Finish(config: Config, e: Exec, status: int, answer: Answer): Exec {
    if HandlesUnauthorized(config, status) then e.(phase := Notifying(answer), notified := e.notified + 1)
    else e.(phase := Done(answer))
  }

  /** runRefresh: join the refresh in flight, or start one. */
  function WithRefresh(s: State): (State, nat) {
    if s.refreshPromise.Some? then (s, s.refreshPromise.value)
    else (s.(refreshPromise := Some(|s.refreshes|), refreshes := s.refreshes + [Pending]), |s.refreshes|)
  }

  function OnReply(config: Config, s: State, i: nat, reply: Reply, custom: Option<bool>): State
    requires i < |s.execs|
  {
    var e := s.execs[i].(first := Some(reply));
    if !ShouldRefresh(config, e.path, reply.status, custom)
    then s.(execs := s.execs[i := Finish(config, e, reply.status, Answered(reply))])
    else
      var (t, r) := WithRefresh(s);
      t.(execs := t.execs[i := e.(phase := Waiting, used := Some(r))])
  }

  function OnRefreshed(config: Config, e: Exec, result: RefreshResult): Exec
    requires e.first.Some?
  {
    if result.Refreshed? then e.(phase := Retrying, requests := e.requests + 1)
    else
      var reply := AfterFailedRefresh(e.first.value, result);
      if result.Unauthorized? then Finish(config, e, reply.status, Answered(reply)) else e.(phase := Done(Answered(reply)))
  }

  predicate IsPhase(s: State, i: nat, phase: Phase) {
    i < |s.execs| && s.execs[i].phase == phase
  }

  function Next(config: Config, s: State, event: Event): State {
    match event
    case Invoke(path, init, dedup) => OnInvoke(s, path, init, dedup)
    case Replied(i, reply, custom) => if IsPhase(s, i, Requesting) then OnReply(config, s, i, reply, custom) else s
    case RequestFailed(i) =>
      if IsPhase(s, i, Requesting) || IsPhase(s, i, Retrying) then s.(execs := s.execs[i := s.execs[i].(phase := Done(Rejected))]) else s
    case RefreshSettled(result) =>
      if s.refreshPromise.Some? && s.refreshPromise.value < |s.refreshes| && s.refreshes[s.refreshPromise.value] == Pending
      then s.(refreshes := s.refreshes[s.refreshPromise.value := Settled(result)])
      else s
    case RefreshFinally =>
      if s.refreshPromise.Some? && s.refreshPromise.value < |s.refreshes| && s.refreshes[s.refreshPromise.value].Settled?
      then s.(refreshPromise := None, refreshes := s.refreshes[s.refreshPromise.value := Over(s.refreshes[s.refreshPromise.value].result)])
      else s
    case ResumeAfterRefresh(i) =>
      if IsPhase(s, i, Waiting) && s.execs[i].used.Some? && s.execs[i].used.value < |s.refreshes|
         && s.refreshes[s.execs[i].used.value].Over? && s.execs[i].first.Some?
      then s.(execs := s.execs[i := OnRefreshed(config, s.execs[i], s.refreshes[s.execs[i].used.value].result)])
      else s
    case RetryReplied(i, reply) =>
      if IsPhase(s, i, Retrying) then s.(execs := s.execs[i := s.execs[i].(phase := Done(Answered(reply)))]) else s
    case Notified(i, ok) =>
      if i < |s.execs| && s.execs[i].phase.Notifying?
      then s.(execs := s.execs[i := s.execs[i].(phase := Done(if ok then s.execs[i].phase.answer else Rejected))])
      else s
    case ExecFinally(i) =>
      if i < |s.execs| && s.execs[i].phase.Done? && !s.execs[i].finalized then
        s.(execs := s.execs[i := s.execs[i].(finalized := true)],
           inflight := if s.execs[i].key.Some? then s.inflight - {s.execs[i].key.value} else s.inflight)
      else s
    case ResumeCaller(c) =>
      if c < |s.callers| && s.callers[c].exec < |s.execs| && s.execs[s.callers[c].exec].finalized
         && s.execs[s.callers[c].exec].phase.Done? && s.callers[c].answer.None?
      then s.(callers := s.callers[c := s.callers[c].(answer := Some(s.execs[s.callers[c].exec].phase.answer))])
      else s
  }

  function Run(config: Config, events: seq<Event>): State {
    if events == [] then Initial() else Next(config, Run(config, events[..|events| - 1]), events[|events| - 1])
  }

  // ---- invariants ----

  /** refreshPromise is the one refresh that is not over. */
  predicate SingleFlight(s: State) {
    && (s.refreshPromise.Some? ==> s.refreshPromise.value < |s.refreshes|)
    && (forall r | 0 <= r < |s.refreshes| :: !s.refreshes[r].Over? <==> s.refreshPromise == Some(r))
  }

  /** A GET is in the map exactly while its execution is not finalized. */
  predicate MapIsExact(s: State) {
    && (forall k | k in s.inflight :: s.inflight[k] < |s.execs| && s.execs[s.inflight[k]].key == Some(k) && !s.execs[s.inflight[k]].finalized)
    && (forall i | 0 <= i < |s.execs| && s.execs[i].key.Some? && !s.execs[i].finalized ::
          s.execs[i].key.value in s.inflight && s.inflight[s.execs[i].key.value] == i)
  }

  predicate CallersAgree(s: State) {
    forall c | 0 <= c < |s.callers| ::
      && s.callers[c].exec < |s.execs|
      && (s.callers[c].answer.Some? ==>
            s.execs[s.callers[c].exec].phase == Done(s.callers[c].answer.value) && s.execs[s.callers[c].exec].finalized)
  }

  /** The result of the refresh an execution waited for, once that is over. */
  predicate UsedOver(refreshes: seq<Refresh>, e: Exec) {
    e.used.Some? && e.used.value < |refreshes| && refreshes[e.used.value].Over?
  }

  /** How far an execution got, and that what it did so far is what its own first reply and its own
      refresh ask for. */
  predicate ExecIsSound(config: Config, refreshes: seq<Refresh>, e: Exec) {
    && (e.finalized ==> e.phase.Done?)
    && (e.used.Some? ==> e.used.value < |refreshes| && e.first.Some?)
    && match e.phase
       case Requesting => e.requests == 1 && e.notified == 0 && e.first.None? && e.used.None?
       case Waiting => e.requests == 1 && e.notified == 0 && e.used.Some?
       case Retrying => e.requests == 2 && e.notified == 0 && UsedOver(refreshes, e) && refreshes[e.used.value].result.Refreshed?
       case Notifying(answer) =>
         e.requests == 1 && e.notified == 1 && answer.Answered? && ReplyIsDue(refreshes, e, answer)
         && NotificationsDue(config, refreshes, e, answer.reply.status) == 1
       case Done(answer) => DoneIsSound(config, refreshes, e, answer)
  }

  /** The answer of an execution that issues no second request. */
  predicate ReplyIsDue(refreshes: seq<Refresh>, e: Exec, answer: Answer) {
    if e.used.None? then e.first.Some? && answer == Answered(e.first.value)
    else
      && UsedOver(refreshes, e) && e.first.Some? && !refreshes[e.used.value].result.Refreshed?
      && answer == Answered(AfterFailedRefresh(e.first.value, refreshes[e.used.value].result))
  }

  predicate DoneIsSound(config: Config, refreshes: seq<Refresh>, e: Exec, answer: Answer) {
    if e.requests == 2
    then e.notified == 0 && UsedOver(refreshes, e) && refreshes[e.used.value].result.Refreshed?
    else
      && e.requests == 1
      && (answer.Answered? ==> ReplyIsDue(refreshes, e, answer) && e.notified == NotificationsDue(config, refreshes, e, answer.reply.status))
      && (answer.Rejected? && e.used.Some? ==> UsedOver(refreshes, e) && refreshes[e.used.value].result.Unauthorized?)
      && e.notified <= 1
  }

  /** onUnauthorized is called for a final 401, except when the refresh failed without being refused. */
  function NotificationsDue(config: Config, refreshes: seq<Refresh>, e: Exec, status: int): nat {
    if UsedOver(refreshes, e) && refreshes[e.used.value].result.Failed? then 0
    else if HandlesUnauthorized(config, status) then 1
    else 0
  }

  predicate Inv(config: Config, s: State) {
    && SingleFlight(s) && MapIsExact(s) && CallersAgree(s)
    && (forall i | 0 <= i < |s.execs| :: ExecIsSound(config, s.refreshes, s.execs[i]))
  }

  /** Refreshes only ever move forward. */
  predicate Advances(a: seq<Refresh>, b: seq<Refresh>) {
    && |a| <= |b|
    && (forall r | 0 <= r < |a| && a[r].Over? :: b[r] == a[r])
  }

  lemma SoundAsRefreshesAdvance(config: Config, a: seq<Refresh>, b: seq<Refresh>, e: Exec)
    requires ExecIsSound(config, a, e) && Advances(a, b)
    ensures ExecIsSound(config, b, e)
  {
  }

  lemma StepAdvances(config: Config, s: State, event: Event)
    requires SingleFlight(s)
    ensures SingleFlight(Next(config, s, event)) && Advances(s.refreshes, Next(config, s, event).refreshes)
  {
  }

  /** What only Invoke and ExecFinally change. */
  predicate SameKeys(a: State, b: State) {
    && |a.execs| == |b.execs| && a.inflight == b.inflight
    && (forall i | 0 <= i < |a.execs| :: a.execs[i].key == b.execs[i].key && a.execs[i].finalized == b.execs[i].finalized)
  }

  lemma MostStepsKeepKeys(config: Config, s: State, event: Event)
    requires !event.Invoke? && !event.ExecFinally?
    ensures SameKeys(s, Next(config, s, event))
  {
  }

  lemma InvokeKeepsMap(s: State, path: string, init: int, dedup: bool)
    requires MapIsExact(s)
    ensures MapIsExact(OnInvoke(s, path, init, dedup))
  {
  }

  lemma FinallyKeepsMap(config: Config, s: State, i: nat)
    requires MapIsExact(s)
    ensures MapIsExact(Next(config, s, ExecFinally(i)))
  {
  }

  lemma SameKeysKeepMap(a: State, b: State)
    requires MapIsExact(a) && SameKeys(a, b)
    ensures MapIsExact(b)
  {
  }

  lemma StepKeepsMap(config: Config, s: State, event: Event)
    requires MapIsExact(s)
    ensures MapIsExact(Next(config, s, event))
  {
    match event
    case Invoke(path, init, dedup) => InvokeKeepsMap(s, path, init, dedup);
    case ExecFinally(i) => FinallyKeepsMap(config, s, i);
    case _ =>
      MostStepsKeepKeys(config, s, event);
      SameKeysKeepMap(s, Next(config, s, event));
  }

  /** Finalized executions keep their answer. */
  predicate KeepsFinalized(a: seq<Exec>, b: seq<Exec>) {
    && |a| <= |b|
    && (forall i | 0 <= i < |a| && a[i].finalized && a[i].phase.Done? :: b[i].finalized && b[i].phase == a[i].phase)
  }

  lemma StepKeepsFinalized(config: Config, s: State, event: Event)
    ensures KeepsFinalized(s.execs, Next(config, s, event).execs)
  {
  }

  lemma StepKeepsCallers(config: Config, s: State, event: Event)
    requires CallersAgree(s) && MapIsExact(s)
    ensures CallersAgree(Next(config, s, event))
  {
    StepKeepsFinalized(config, s, event);
    var t := Next(config, s, event);
    match event
    case Invoke(path, init, dedup) =>
      assert t.callers[..|s.callers|] == s.callers;
    case ResumeCaller(c) =>
    case _ => assert t.callers == s.callers;
  }

  lemma ReplyKeepsExec(config: Config, s: State, i: nat, reply: Reply, custom: Option<bool>)
    requires SingleFlight(s) && IsPhase(s, i, Requesting) && ExecIsSound(config, s.refreshes, s.execs[i])
    ensures var t := OnReply(config, s, i, reply, custom);
      |t.execs| == |s.execs| && ExecIsSound(config, t.refreshes, t.execs[i]) && (forall j | 0 <= j < |s.execs| && j != i :: t.execs[j] == s.execs[j])
  {
  }

  lemma RefreshedKeepsExec(config: Config, refreshes: seq<Refresh>, e: Exec)
    requires ExecIsSound(config, refreshes, e) && e.phase.Waiting? && UsedOver(refreshes, e)
    ensures ExecIsSound(config, refreshes, OnRefreshed(config, e, refreshes[e.used.value].result))
  {
  }

  lemma OtherStepsKeepExec(config: Config, s: State, event: Event, i: nat)
    requires i < |s.execs| && ExecIsSound(config, s.refreshes, s.execs[i])
    requires !event.Invoke? && !event.Replied? && !event.ResumeAfterRefresh?
    ensures i < |Next(config, s, event).execs| && ExecIsSound(config, s.refreshes, Next(config, s, event).execs[i])
  {
  }

  lemma StepKeepsExec(config: Config, s: State, event: Event, i: nat)
    requires Inv(config, s) && i < |Next(config, s, event).execs|
    ensures ExecIsSound(config, Next(config, s, event).refreshes, Next(config, s, event).execs[i])
  {
    var t := Next(config, s, event);
    StepAdvances(config, s, event);
    match event
    case Invoke(path, init, dedup) =>
    case Replied(j, reply, custom) =>
      if IsPhase(s, j, Requesting) {
        ReplyKeepsExec(config, s, j, reply, custom);
        if i != j {
          SoundAsRefreshesAdvance(config, s.refreshes, t.refreshes, s.execs[i]);
        }
      }
    case ResumeAfterRefresh(j) =>
      assert ExecIsSound(config, s.refreshes, s.execs[i]);
      if i == j && t != s {
        RefreshedKeepsExec(config, s.refreshes, s.execs[i]);
      }
    case _ =>
      OtherStepsKeepExec(config, s, event, i);
      SoundAsRefreshesAdvance(config, s.refreshes, t.refreshes, t.execs[i]);
  }

  lemma StepKeepsInv(config: Config, s: State, event: Event)
    requires Inv(config, s)
    ensures Inv(config, Next(config, s, event))
  {
    StepAdvances(config, s, event);
    StepKeepsMap(config, s, event);
    StepKeepsCallers(config, s, event);
    forall i | 0 <= i < |Next(config, s, event).execs|
      ensures ExecIsSound(config, Next(config, s, event).refreshes, Next(config, s, event).execs[i])
    {
      StepKeepsExec(config, s, event, i);
    }
  }

  lemma {:induction false} RunKeepsInv(config: Config, events: seq<Event>)
    ensures Inv(config, Run(config, events))
  {
    if events != [] {
      RunKeepsInv(config, events[..|events| - 1]);
      StepKeepsInv(config, Run(config, events[..|events| - 1]), events[|events| - 1]);
    }
  }

  // ---- what every run keeps ----

  /** At most one refresh is in flight, and it is the one new requests join. */
  lemma OneRefreshInFlight(config: Config, events: seq<Event>, q: nat, r: nat)
    requires q < |Run(config, events).refreshes| && !Run(config, events).refreshes[q].Over?
    requires r < |Run(config, events).refreshes| && !Run(config, events).refreshes[r].Over?
    ensures q == r && Run(config, events).refreshPromise == Some(q)
  {
    RunKeepsInv(config, events);
  }

  lemma {:induction false} RunAdvances(config: Config, events: seq<Event>, more: seq<Event>)
    ensures Advances(Run(config, events).refreshes, Run(config, events + more).refreshes)
  {
    if more == [] {
      assert events + more == events;
    } else {
      var rest := more[..|more| - 1];
      assert (events + more)[..|events + more| - 1] == events + rest;
      RunAdvances(config, events, rest);
      RunKeepsInv(config, events + rest);
      StepAdvances(config, Run(config, events + rest), more[|more| - 1]);
    }
  }

  /** While a refresh is in flight, however many replies ask for one, no other is started. */
  lemma {:induction false} NoSecondRefresh(config: Config, events: seq<Event>, more: seq<Event>)
    requires Run(config, events).refreshPromise.Some?
    requires Run(config, events + more).refreshPromise == Run(config, events).refreshPromise
    ensures |Run(config, events + more).refreshes| == |Run(config, events).refreshes|
  {
    if more == [] {
      assert events + more == events;
    } else {
      var r := Run(config, events).refreshPromise.value;
      var rest, last := more[..|more| - 1], more[|more| - 1];
      assert (events + more)[..|events + more| - 1] == events + rest && (events + more)[|events + more| - 1] == last;
      RunKeepsInv(config, events);
      RunKeepsInv(config, events + rest);
      RunKeepsInv(config, events + more);
      RunAdvances(config, events, rest);
      StepAdvances(config, Run(config, events + rest), last);
      assert !Run(config, events + more).refreshes[r].Over?;
      assert !Run(config, events + rest).refreshes[r].Over?;
      NoSecondRefresh(config, events, rest);
    }
  }

  /** Nobody waits for nothing: the refresh an execution waits for is over or is the one in flight. */
  lemma WaitingIsAnswered(config: Config, events: seq<Event>, i: nat)
    requires IsPhase(Run(config, events), i, Waiting)
    ensures var s := Run(config, events);
      UsedOver(s.refreshes, s.execs[i]) || s.refreshPromise == s.execs[i].used
  {
    RunKeepsInv(config, events);
    var s := Run(config, events);
    assert ExecIsSound(config, s.refreshes, s.execs[i]);
  }

  /** At most two transport requests, and two exactly when the refresh this execution waited for
      succeeded and it has resumed. */
  lemma TwoRequestsIff(config: Config, events: seq<Event>, i: nat)
    requires i < |Run(config, events).execs|
    ensures var s := Run(config, events); var e := s.execs[i];
      && 1 <= e.requests <= 2
      && (e.requests == 2 <==> e.phase != Waiting && UsedOver(s.refreshes, e) && s.refreshes[e.used.value].result.Refreshed?)
  {
    RunKeepsInv(config, events);
    var s := Run(config, events);
    assert ExecIsSound(config, s.refreshes, s.execs[i]);
  }

  /** Executions that waited for the same refresh get its result: either all retry, or each is answered
      from its own first reply and that one result. */
  lemma WaitersShareTheResult(config: Config, events: seq<Event>, i: nat, j: nat)
    requires i < |Run(config, events).execs| && j < |Run(config, events).execs|
    requires Run(config, events).execs[i].phase.Done? && Run(config, events).execs[j].phase.Done?
    requires Run(config, events).execs[i].used == Run(config, events).execs[j].used && Run(config, events).execs[i].used.Some?
    ensures var s := Run(config, events); var a, b := s.execs[i], s.execs[j];
      && a.requests == b.requests && UsedOver(s.refreshes, a)
      && var result := s.refreshes[a.used.value].result;
        && (a.requests == 2 <==> result.Refreshed?)
        && (a.requests == 1 && a.phase.answer.Answered? ==> a.first.Some? && a.phase.answer.reply == AfterFailedRefresh(a.first.value, result))
        && (b.requests == 1 && b.phase.answer.Answered? ==> b.first.Some? && b.phase.answer.reply == AfterFailedRefresh(b.first.value, result))
  {
    RunKeepsInv(config, events);
    var s := Run(config, events);
    assert ExecIsSound(config, s.refreshes, s.execs[i]) && ExecIsSound(config, s.refreshes, s.execs[j]);
  }

  /** Without a refresh of its own, an execution that is answered is answered with its own reply; and with one that
      was refused or failed, with that reply under the status that counts. */
  lemma AnswerIsItsOwn(config: Config, events: seq<Event>, i: nat)
    requires i < |Run(config, events).execs| && Run(config, events).execs[i].phase.Done?
    requires Run(config, events).execs[i].phase.answer.Answered? && Run(config, events).execs[i].requests == 1
    ensures var s := Run(config, events); var e := s.execs[i]; var reply := e.phase.answer.reply;
      && e.first.Some?
      && (e.used.None? ==> reply == e.first.value)
      && (e.used.Some? ==> UsedOver(s.refreshes, e) && !s.refreshes[e.used.value].result.Refreshed?)
      && (e.used.Some? ==> reply.status == e.first.value.status || (reply.status >= 400 && s.refreshes[e.used.value].result.status == Some(reply.status)))
  {
    RunKeepsInv(config, events);
    var s := Run(config, events);
    assert ExecIsSound(config, s.refreshes, s.execs[i]);
  }

  /** onUnauthorized runs at most once per execution, never after a retry, and exactly when the answer is
      a 401 that the client handles and the refresh did not merely fail. */
  lemma NotifiedOnce(config: Config, events: seq<Event>, i: nat)
    requires i < |Run(config, events).execs|
    ensures var s := Run(config, events); var e := s.execs[i];
      && e.notified <= 1 && (e.requests == 2 ==> e.notified == 0)
      && (e.phase.Done? && e.phase.answer.Answered? && e.requests == 1 ==>
            (e.notified == 1 <==>
              HandlesUnauthorized(config, e.phase.answer.reply.status) && !(UsedOver(s.refreshes, e) && s.refreshes[e.used.value].result.Failed?)))
  {
    RunKeepsInv(config, events);
    var s := Run(config, events);
    assert ExecIsSound(config, s.refreshes, s.execs[i]);
  }

  /** At most one execution per key is unsettled; it is the one a new call joins. */
  lemma OneExecutionPerKey(config: Config, events: seq<Event>, i: nat, j: nat)
    requires i < |Run(config, events).execs| && j < |Run(config, events).execs|
    requires Run(config, events).execs[i].key.Some? && Run(config, events).execs[i].key == Run(config, events).execs[j].key
    requires !Run(config, events).execs[i].finalized && !Run(config, events).execs[j].finalized
    ensures i == j
  {
    RunKeepsInv(config, events);
  }

  /** A call joins an execution exactly when one with its key is not finalized; otherwise it starts one. */
  lemma CallJoinsIff(config: Config, events: seq<Event>, path: string, init: int, dedup: bool)
    ensures var s := Run(config, events); var t := Next(config, s, Invoke(path, init, dedup));
      && |t.callers| == |s.callers| + 1
      && var joined := t.callers[|s.callers|].exec;
        && joined < |t.execs| && (dedup ==> t.execs[joined].key == Some(Key(path, init)) && !t.execs[joined].finalized)
        && (t.execs == s.execs <==> dedup && exists i :: 0 <= i < |s.execs| && s.execs[i].key == Some(Key(path, init)) && !s.execs[i].finalized)
  {
    RunKeepsInv(config, events);
    var s := Run(config, events);
    var t := Next(config, s, Invoke(path, init, dedup));
    if dedup && Key(path, init) in s.inflight {
      var i := s.inflight[Key(path, init)];
      assert s.execs[i].key == Some(Key(path, init)) && !s.execs[i].finalized;
    } else {
      assert |t.execs| == |s.execs| + 1;
    }
  }

  lemma CallJoins(config: Config, events: seq<Event>, before: State, after: State, path: string, init: int, dedup: bool)
    requires before == Run(config, events) && after == OnInvoke(before, path, init, dedup)
    ensures after == Run(config, events + [Invoke(path, init, dedup)])
    ensures |after.callers| == |before.callers| + 1 && after.callers[|before.callers|].answer == None
    ensures var joined := after.callers[|before.callers|].exec;
      joined < |after.execs| && (dedup ==> after.execs[joined].key == Some(Key(path, init)) && !after.execs[joined].finalized)
    ensures after.execs == before.execs <==>
      dedup && exists i :: 0 <= i < |before.execs| && before.execs[i].key == Some(Key(path, init)) && !before.execs[i].finalized
  {
    CallJoinsIff(config, events, path, init, dedup);
    RunSnoc(config, events, Invoke(path, init, dedup));
  }

  /** Every caller of one execution gets its one answer. */
  lemma CallersOfOneExecutionAgree(config: Config, events: seq<Event>, c: nat, d: nat)
    requires c < |Run(config, events).callers| && d < |Run(config, events).callers|
    requires Run(config, events).callers[c].exec == Run(config, events).callers[d].exec
    requires Run(config, events).callers[c].answer.Some? && Run(config, events).callers[d].answer.Some?
    ensures Run(config, events).callers[c].answer == Run(config, events).callers[d].answer
  {
    RunKeepsInv(config, events);
    var s := Run(config, events);
    assert s.execs[s.callers[c].exec].phase == Done(s.callers[c].answer.value);
    assert s.execs[s.callers[d].exec].phase == Done(s.callers[d].answer.value);
  }

  // ---- the pure parts, in numbers ----

  /** A refresh is asked for when refreshing is on and the transport says so, or says nothing about a 401 of any
      path but that of the refresh itself. */
  lemma RefreshIsAskedIff(config: Config, path: string, status: int, custom: Option<bool>)
    ensures ShouldRefresh(config, path, status, custom) <==>
      config.enableRefresh && (custom == Some(true) || (custom == None && status == 401 && path != "/api/v1/auth/refresh"))
  {
  }

  /** After a failed refresh: its own status when that is an error, else the first reply's; with the first reply's
      content when the refresh was refused, and with the refresh's error and nothing else when it failed. */
  lemma FailedRefreshAnswers(first: Reply, result: RefreshResult)
    requires !result.Refreshed?
    ensures var r := AfterFailedRefresh(first, result);
      && (result.status.Some? && result.status.value >= 400 ==> r.status == result.status.value)
      && (result.status.None? || result.status.value < 400 ==> r.status == first.status)
      && (result.Unauthorized? ==> r.error == first.error && r.data == first.data)
      && (result.Failed? ==> r.error == Some(result.error) && r.data == None)
  {
  }

  /** onUnauthorized is for a 401 of a client that reauthenticates. */
  lemma UnauthorizedIsHandledIff(config: Config, status: int)
    ensures HandlesUnauthorized(config, status) <==> status == 401 && config.reauthenticate
  {
  }

  // ---- what one step does to a client that has come this far ----

  lemma {:induction false} RunSnoc(config: Config, events: seq<Event>, e: Event)
    ensures Run(config, events + [e]) == Next(config, Run(config, events), e)
  {
    assert (events + [e])[..|events|] == events;
  }

  /** A reply that asks for a refresh waits for the one in flight, and starts one only when there is none;
      any other is the answer, and a handled 401 is notified. */
  lemma {:induction false} ReplyWaitsOrAnswers(config: Config, events: seq<Event>, i: nat, reply: Reply, custom: Option<bool>)
    requires IsPhase(Run(config, events), i, Requesting)
    ensures var s, t := Run(config, events), Run(config, events + [Replied(i, reply, custom)]);
      && |t.execs| == |s.execs|
      && var e := t.execs[i];
        if ShouldRefresh(config, s.execs[i].path, reply.status, custom) then
          && e.phase == Waiting && e.used == t.refreshPromise && t.refreshPromise.Some?
          && (if s.refreshPromise.Some? then t.refreshPromise == s.refreshPromise && t.refreshes == s.refreshes else |t.refreshes| == |s.refreshes| + 1)
        else
          && t.refreshes == s.refreshes
          && e.phase == (if HandlesUnauthorized(config, reply.status) then Notifying(Answered(reply)) else Done(Answered(reply)))
          && (e.notified == 1 <==> HandlesUnauthorized(config, reply.status))
  {
    RunSnoc(config, events, Replied(i, reply, custom));
    RunKeepsInv(config, events);
    assert ExecIsSound(config, Run(config, events).refreshes, Run(config, events).execs[i]);
  }

  lemma {:induction false} ReplyIsRecorded(config: Config, events: seq<Event>, i: nat, reply: Reply, custom: Option<bool>)
    requires IsPhase(Run(config, events), i, Requesting)
    ensures var t := Run(config, events + [Replied(i, reply, custom)]);
      i < |t.execs| && t.execs[i].first == Some(reply) && t.execs[i].requests == 1
  {
    RunSnoc(config, events, Replied(i, reply, custom));
    RunKeepsInv(config, events);
    assert ExecIsSound(config, Run(config, events).refreshes, Run(config, events).execs[i]);
  }

  /** When the refresh is over nothing else is in flight, and everyone who waited can go on. */
  lemma {:induction false} FinallyFreesWaiters(config: Config, events: seq<Event>)
    requires Run(config, events + [RefreshFinally]).refreshPromise == None
    ensures var t := Run(config, events + [RefreshFinally]);
      && (forall r | 0 <= r < |t.refreshes| :: t.refreshes[r].Over?)
      && (forall i | 0 <= i < |t.execs| && t.execs[i].phase == Waiting :: UsedOver(t.refreshes, t.execs[i]))
  {
    var t := Run(config, events + [RefreshFinally]);
    RunKeepsInv(config, events + [RefreshFinally]);
    forall i | 0 <= i < |t.execs| && t.execs[i].phase == Waiting
      ensures UsedOver(t.refreshes, t.execs[i])
    {
      assert ExecIsSound(config, t.refreshes, t.execs[i]);
    }
  }

  /** A finished execution was the one registered under its key, and takes no other entry along. */
  lemma {:induction false} FinallyDropsOwnEntry(config: Config, events: seq<Event>, i: nat)
    requires i < |Run(config, events).execs| && Run(config, events).execs[i].phase.Done? && !Run(config, events).execs[i].finalized
    ensures var s, t := Run(config, events), Run(config, events + [ExecFinally(i)]);
      && (forall k | k in t.inflight :: k in s.inflight && t.inflight[k] == s.inflight[k] != i)
      && (forall k | k in s.inflight && s.inflight[k] != i :: k in t.inflight)
  {
    RunSnoc(config, events, ExecFinally(i));
    RunKeepsInv(config, events);
  }

  // ---- the client ----

  /** `events` is what has happened to the client; the theorems above are about it. */
  class Client {
    const config: Config
    var refreshPromise: Option<nat>
    var refreshes: seq<Refresh>
    var execs: seq<Exec>
    var inflight: map<Key, nat>
    var callers: seq<Caller>
    ghost var events: seq<Event>

    function View(): State
      reads this
    {
      State(refreshPromise, refreshes, execs, inflight, callers)
    }

    ghost predicate Valid()
      reads this
    {
      View() == Run(config, events)
    }

    constructor (config: Config)
      ensures Valid() && events == [] && this.config == config
    {
      this.config := config;
      refreshPromise, refreshes, execs, inflight, callers := None, [], [], map[], [];
      events := [];
    }

    // ---- what the functions share ----

    method RunRefresh() returns (r: nat)
      modifies this
      ensures (View(), r) == WithRefresh(old(View())) && events == old(events)
    {
      if refreshPromise.Some? {
        return refreshPromise.value;
      }
      r := |refreshes|;
      refreshes := refreshes + [Pending];
      refreshPromise := Some(r);
    }

    method MaybeHandleUnauthorized(e: Exec, status: int, answer: Answer) returns (f: Exec)
      ensures f == Finish(config, e, status, answer)
    {
      if status != 401 || !config.reauthenticate {
        return e.(phase := Done(answer));
      }
      return e.(phase := Notifying(answer), notified := e.notified + 1);
    }

    // ---- calls ----

    /** The new caller joins the unsettled execution with its key, or starts one exactly when there is none. */
    method InvokeClientMethod(path: string, init: int, dedup: bool) returns (caller: nat)
      requires Valid()
      modifies this
      ensures Valid() && events == old(events) + [Invoke(path, init, dedup)]
      ensures caller == |old(callers)| < |callers| && callers[caller].exec < |execs| && callers[caller].answer == None
      ensures dedup ==> execs[callers[caller].exec].key == Some(Key(path, init)) && !execs[callers[caller].exec].finalized
      ensures execs == old(execs) || execs == old(execs) + [Exec(if dedup then Some(Key(path, init)) else None, path, Requesting, 1, None, None, 0, false)]
      ensures refreshes == old(refreshes) && refreshPromise == old(refreshPromise) && callers[..caller] == old(callers)
      ensures execs == old(execs) <==>
        dedup && exists i :: 0 <= i < |old(execs)| && old(execs)[i].key == Some(Key(path, init)) && !old(execs)[i].finalized
    {
      caller := |callers|;
      if dedup && Key(path, init) in inflight {
        callers := callers + [Caller(inflight[Key(path, init)], None)];
      } else {
        if dedup {
          inflight := inflight[Key(path, init) := |execs|];
        }
        callers := callers + [Caller(|execs|, None)];
        execs := execs + [Start(path, if dedup then Some(Key(path, init)) else None)];
      }
      CallJoins(config, events, old(View()), View(), path, init, dedup);
      events := events + [Invoke(path, init, dedup)];
    }

    // ---- performRequest, await by await ----

    method ReplyArrives(i: nat, reply: Reply, custom: Option<bool>)
      requires Valid() && IsPhase(View(), i, Requesting)
      modifies this
      ensures Valid() && events == old(events) + [Replied(i, reply, custom)] && |execs| == |old(execs)|
      ensures execs[i].first == Some(reply) && execs[i].requests == 1
      ensures var asked := config.enableRefresh
          && (custom == Some(true) || (custom == None && reply.status == 401 && old(execs)[i].path != "/api/v1/auth/refresh"));
        if asked
        then execs[i].phase == Waiting && execs[i].used == refreshPromise != None && (old(refreshPromise) == None || refreshes == old(refreshes))
        else
          && refreshes == old(refreshes)
          && execs[i].phase == if reply.status == 401 && config.reauthenticate then Notifying(Answered(reply)) else Done(Answered(reply))
    {
      var e := execs[i].(first := Some(reply));
      if !ShouldRefresh(config, e.path, reply.status, custom) {
        var f := MaybeHandleUnauthorized(e, reply.status, Answered(reply));
        execs := execs[i := f];
      } else {
        var r := RunRefresh();
        execs := execs[i := e.(phase := Waiting, used := Some(r))];
      }
      events := events + [Replied(i, reply, custom)];
      RunSnoc(config, old(events), Replied(i, reply, custom));
      ReplyWaitsOrAnswers(config, old(events), i, reply, custom);
      ReplyIsRecorded(config, old(events), i, reply, custom);
    }

    /** A transport request that throws rejects its execution. */
    method RequestThrows(i: nat)
      requires Valid() && (IsPhase(View(), i, Requesting) || IsPhase(View(), i, Retrying))
      modifies this
      ensures Valid() && events == old(events) + [RequestFailed(i)] && |execs| == |old(execs)|
      ensures execs[i].phase == Done(Rejected) && refreshes == old(refreshes)
    {
      execs := execs[i := execs[i].(phase := Done(Rejected))];
      events := events + [RequestFailed(i)];
      RunSnoc(config, old(events), RequestFailed(i));
    }

    /** The refresh settles; until its `finally` has run new requests still join it. */
    method RefreshSettles(result: RefreshResult)
      requires Valid() && refreshPromise.Some? && refreshPromise.value < |refreshes| && refreshes[refreshPromise.value] == Pending
      modifies this
      ensures Valid() && events == old(events) + [RefreshSettled(result)]
      ensures refreshPromise == old(refreshPromise) && |refreshes| == |old(refreshes)|
    {
      refreshes := refreshes[refreshPromise.value := Settled(result)];
      events := events + [RefreshSettled(result)];
      RunSnoc(config, old(events), RefreshSettled(result));
    }

    /** The `finally` of the refresh: no refresh is in flight any more, and everyone who waited can go on. */
    method FinishRefresh()
      requires Valid() && refreshPromise.Some? && refreshPromise.value < |refreshes| && refreshes[refreshPromise.value].Settled?
      modifies this
      ensures Valid() && events == old(events) + [RefreshFinally] && refreshPromise == None
      ensures forall r | 0 <= r < |refreshes| :: refreshes[r].Over?
      ensures forall i | 0 <= i < |execs| && execs[i].phase == Waiting :: UsedOver(refreshes, execs[i])
    {
      var r := refreshPromise.value;
      refreshes := refreshes[r := Over(refreshes[r].result)];
      refreshPromise := None;
      events := events + [RefreshFinally];
      RunSnoc(config, old(events), RefreshFinally);
      FinallyFreesWaiters(config, old(events));
    }

    /** A waiter retries exactly after a successful refresh; else its answer is made of its own first reply and
        the result all waiters share. */
    method ResumeWaiter(i: nat)
      requires Valid() && IsPhase(View(), i, Waiting) && UsedOver(refreshes, execs[i]) && execs[i].first.Some?
      modifies this
      ensures Valid() && events == old(events) + [ResumeAfterRefresh(i)] && |execs| == |old(execs)| && refreshes == old(refreshes)
      ensures var result := refreshes[old(execs)[i].used.value].result;
        && (execs[i].phase == Retrying <==> result.Refreshed?)
        && (result.Refreshed? ==> execs[i].requests == old(execs)[i].requests + 1)
        && (!result.Refreshed? ==>
              var status := if result.status.Some? && result.status.value >= 400 then result.status.value else old(execs)[i].first.value.status;
              var answer := Answered(if result.Unauthorized? then old(execs)[i].first.value.(status := status) else Reply(status, Some(result.error), None));
              execs[i].phase == if result.Unauthorized? && status == 401 && config.reauthenticate then Notifying(answer) else Done(answer))
    {
      var e := execs[i];
      var result := refreshes[e.used.value].result;
      if result == Refreshed {
        execs := execs[i := e.(phase := Retrying, requests := e.requests + 1)];
      } else {
        var first := e.first.value;
        var failureStatus := RefreshFailureStatus(first.status, result.status);
        if result.Unauthorized? {
          var f := MaybeHandleUnauthorized(e, failureStatus, Answered(first.(status := failureStatus)));
          execs := execs[i := f];
        } else {
          execs := execs[i := e.(phase := Done(Answered(Reply(failureStatus, Some(result.error), None))))];
        }
      }
      events := events + [ResumeAfterRefresh(i)];
      RunSnoc(config, old(events), ResumeAfterRefresh(i));
    }

    /** The second reply is the answer whatever its status: it is neither refreshed nor notified again. */
    method RetryArrives(i: nat, reply: Reply)
      requires Valid() && IsPhase(View(), i, Retrying)
      modifies this
      ensures Valid() && events == old(events) + [RetryReplied(i, reply)] && |execs| == |old(execs)|
      ensures execs[i].phase == Done(Answered(reply)) && execs[i].requests == 2 && execs[i].notified == 0 && refreshes == old(refreshes)
    {
      execs := execs[i := execs[i].(phase := Done(Answered(reply)))];
      events := events + [RetryReplied(i, reply)];
      RunSnoc(config, old(events), RetryReplied(i, reply));
      RunKeepsInv(config, old(events));
      assert ExecIsSound(config, old(refreshes), old(execs)[i]);
    }

    /** onUnauthorized returns, or throws and so rejects the execution. */
    method NotificationReturns(i: nat, ok: bool)
      requires Valid() && i < |execs| && execs[i].phase.Notifying?
      modifies this
      ensures Valid() && events == old(events) + [Notified(i, ok)] && |execs| == |old(execs)|
      ensures execs[i].phase == Done(if ok then old(execs)[i].phase.answer else Rejected) && execs[i].notified == 1
    {
      execs := execs[i := execs[i].(phase := Done(if ok then execs[i].phase.answer else Rejected))];
      events := events + [Notified(i, ok)];
      RunSnoc(config, old(events), Notified(i, ok));
      RunKeepsInv(config, old(events));
      assert ExecIsSound(config, old(refreshes), old(execs)[i]);
    }

    /** The `finally` of an execution: of the GETs in flight its own entry goes, and no other. */
    method FinishExecution(i: nat)
      requires Valid() && i < |execs| && execs[i].phase.Done? && !execs[i].finalized
      modifies this
      ensures Valid() && events == old(events) + [ExecFinally(i)]
      ensures forall k | k in inflight :: k in old(inflight) && inflight[k] == old(inflight)[k] != i
      ensures forall k | k in old(inflight) && old(inflight)[k] != i :: k in inflight
    {
      if execs[i].key.Some? {
        inflight := inflight - {execs[i].key.value};
      }
      execs := execs[i := execs[i].(finalized := true)];
      events := events + [ExecFinally(i)];
      RunSnoc(config, old(events), ExecFinally(i));
      FinallyDropsOwnEntry(config, old(events), i);
    }

    /** A caller gets the answer of the execution it joined. */
    method CallerResumes(c: nat) returns (answer: Answer)
      requires Valid() && c < |callers| && callers[c].answer.None? && callers[c].exec < |execs|
      requires execs[callers[c].exec].finalized && execs[callers[c].exec].phase.Done?
      modifies this
      ensures Valid() && events == old(events) + [ResumeCaller(c)] && |callers| == |old(callers)|
      ensures callers[c].answer == Some(answer) && execs[callers[c].exec].phase == Done(answer) && execs == old(execs)
    {
      answer := execs[callers[c].exec].phase.answer;
      callers := callers[c := callers[c].(answer := Some(answer))];
      events := events + [ResumeCaller(c)];
      RunSnoc(config, old(events), ResumeCaller(c));
    }
  }
}
