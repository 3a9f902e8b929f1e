/** Any number of publishers on one directory, from a settled disk to wherever a schedule leaves them: the
    history goes on without a gap and nothing published is lost, or it forks and is refused for good. */
module ActivationReach {
  import opened Options
  import opened ActivationRecords
  import opened ActivationChain
  import opened ActivationPublish
  import opened ActivationRuns
  import opened ActivationCrash
  import opened ActivationForks

  // ---- whole schedules ----

  /** One of the publishers made the record at `i`, as the successor of those before it. */
  ghost predicate IsMade(c: Codec, s: System, chain: seq<Record>, i: int)
    requires 0 <= i < |chain|
  {
    exists p :: 0 <= p < |s.publishers| && IsSuccessor(c, s.publishers[p].request, chain[..i], chain[i])
  }

  ghost predicate Extends(c: Codec, s: System, chain: seq<Record>, longer: seq<Record>) {
    && chain <= longer
    && forall i | |chain| <= i < |longer| :: IsMade(c, s, longer, i)
  }

  ghost predicate SameRequests(a: System, b: System) {
    && |a.publishers| == |b.publishers|
    && forall i | 0 <= i < |a.publishers| :: a.publishers[i].request == b.publishers[i].request
  }

  lemma ExtendsByOne(c: Codec, s: System, who: nat, chain: seq<Record>, r: Record)
    requires who < |s.publishers| && IsSuccessor(c, s.publishers[who].request, chain, r)
    ensures Extends(c, s, chain, chain + [r])
  {
    var longer := chain + [r];
    assert longer[..|chain|] == chain && longer[|chain|] == r;
    assert IsMade(c, s, longer, |chain|);
  }

  lemma ExtendsFurther(c: Codec, s: System, next: System, chain: seq<Record>, middle: seq<Record>, longer: seq<Record>)
    requires Extends(c, s, chain, middle) && Extends(c, next, middle, longer) && SameRequests(s, next)
    ensures Extends(c, s, chain, longer)
  {
    forall i | |chain| <= i < |longer|
      ensures IsMade(c, s, longer, i)
    {
      if i < |middle| {
        assert IsMade(c, s, middle, i);
        PrefixesAgree(middle, longer, i);
      } else {
        assert IsMade(c, next, longer, i);
      }
    }
  }

  /** Every call but the exclusive link keeps the chain; the rename catches up with it. */
  lemma PlainMoves(c: Codec, req: Request, disk: Disk, place: Place, input: Input, chain: seq<Record>, known: nat)
    returns (ahead: nat)
    requires IsRequest(req) && Names(c, disk, chain, known) && Fits(c, req, disk, chain, known, place) && !place.Written?
    ensures var (disk', place') := Step(c, req, disk, place, input);
      Moves(c, req, disk, place, disk', place', chain, known, chain, ahead)
  {
    if place.PointerWritten? {
      ahead := |chain|;
      ReplacingMoves(c, req, disk, place.record, place.temporary, input, chain, known);
    } else {
      ahead := known;
      PlainStepKeeps(c, req, disk, place, input, chain, known);
      var (disk', place') := Step(c, req, disk, place, input);
      KeepsMoves(c, req, disk, place, disk', place', chain, known);
    }
  }

  lemma MovesOrForks(c: Codec, s: System, who: nat, input: Input, chain: seq<Record>, known: nat)
    returns (longer: seq<Record>, ahead: nat)
    requires Linear(c, s, chain, known) && who < |s.publishers|
    ensures var p := s.publishers[who]; var (disk', place') := Step(c, p.request, s.disk, p.place, input);
      || Forked(c, disk')
      || (Moves(c, p.request, s.disk, p.place, disk', place', chain, known, longer, ahead) && Extends(c, s, chain, longer))
  {
    var p := s.publishers[who];
    longer, ahead := chain, known;
    assert FitsAt(c, s, chain, known, who);
    if p.place.Written? {
      var r, name := p.place.record, p.place.temporary;
      LinkingMoves(c, p.request, s.disk, r, name, input, chain, known);
      if FileName(r.id) !in Files(s.disk) && IsSuccessor(c, p.request, chain, r) {
        ExtendsByOne(c, s, who, chain, r);
        longer := chain + [r];
      }
    } else {
      ahead := PlainMoves(c, p.request, s.disk, p.place, input, chain, known);
    }
  }

  /** One call: the directory goes on, or it forks. */
  lemma AdvanceExtendsOrForks(c: Codec, s: System, e: Event, chain: seq<Record>, known: nat)
    returns (longer: seq<Record>, ahead: nat)
    requires Linear(c, s, chain, known)
    ensures var next := Advance(c, s, e);
      SameRequests(s, next) && (Forked(c, next.disk) || (Linear(c, next, longer, ahead) && Extends(c, s, chain, longer)))
  {
    longer, ahead := chain, known;
    if e.who < |s.publishers| {
      var p := s.publishers[e.who];
      var (disk', place') := Step(c, p.request, s.disk, p.place, e.input);
      longer, ahead := MovesOrForks(c, s, e.who, e.input, chain, known);
      if !Forked(c, disk') {
        MoveKeepsLinear(c, s, e.who, disk', place', chain, known, longer, ahead);
      }
    }
  }

  lemma LinearIsSound(c: Codec, s: System, chain: seq<Record>, known: nat)
    requires Linear(c, s, chain, known)
    ensures Sound(s)
  {
    forall i | 0 <= i < |s.publishers|
      ensures HoldsTemporary(s.publishers[i].place)
    {
      assert FitsAt(c, s, chain, known, i);
    }
  }

  /** Every schedule leaves a chain that goes on from the old one, or a fork. */
  lemma {:induction false} RunExtendsOrForks(c: Codec, s: System, schedule: seq<Event>, chain: seq<Record>, known: nat)
    returns (longer: seq<Record>, ahead: nat)
    requires Linear(c, s, chain, known)
    ensures var end := Run(c, s, schedule);
      Forked(c, end.disk) || (Linear(c, end, longer, ahead) && Extends(c, s, chain, longer))
    decreases |schedule|
  {
    if schedule == [] {
      return chain, known;
    }
    var next := Advance(c, s, schedule[0]);
    longer, ahead := AdvanceExtendsOrForks(c, s, schedule[0], chain, known);
    if Forked(c, next.disk) {
      LinearIsSound(c, s, chain, known);
      AdvanceIsSound(c, s, schedule[0]);
      RunGrows(c, next, schedule[1..]);
      ForkStays(c, next.disk, Run(c, next, schedule[1..]).disk);
    } else {
      var middle := longer;
      longer, ahead := RunExtendsOrForks(c, next, schedule[1..], middle, ahead);
      if !Forked(c, Run(c, s, schedule).disk) {
        ExtendsFurther(c, s, next, chain, middle, longer);
      }
    }
  }

  lemma AdvanceIsSound(c: Codec, s: System, e: Event)
    requires Sound(s)
    ensures Sound(Advance(c, s, e))
  {
    if e.who < |s.publishers| {
      StepGrows(c, s.publishers[e.who].request, s.disk, s.publishers[e.who].place, e.input);
    }
  }

  /** Everybody is about to begin, on a directory with a history or with nothing in it. */
  ghost predicate IsFresh(c: Codec, s: System, chain: seq<Record>) {
    && Settled(c, s.disk, chain)
    && forall i | 0 <= i < |s.publishers| :: s.publishers[i].place == Start && IsRequest(s.publishers[i].request)
  }

  lemma HistoryHasRecordNames(c: Reader, disk: Disk, chain: seq<Record>)
    requires IsHistory(c, disk, chain)
    ensures forall name | name in Files(disk) :: IsRecordName(name) && IsNamed(chain, name)
  {
    forall name | name in Files(disk)
      ensures IsRecordName(name) && IsNamed(chain, name)
    {
      assert IsNamed(chain, name);
      var i :| 0 <= i < |chain| && name == FileName(chain[i].id);
      FileNameIsInjective(chain[i].id, chain[i].id);
    }
  }

  lemma HistoryIsStored(c: Codec, now: int, disk: Disk, chain: seq<Record>)
    requires IsHistory(At(c, now), disk, chain)
    ensures forall i | 0 <= i < |chain| :: IsStored(c, disk, chain[i])
  {
    forall i | 0 <= i < |chain|
      ensures IsStored(c, disk, chain[i])
    {
      assert Valid(At(c, now), chain[i]) && Stores(At(c, now), disk.records.value, chain[i]);
    }
  }

  lemma HistoryIsLinked(c: Codec, now: int, chain: seq<Record>)
    requires Linked(At(c, now), chain)
    ensures forall i | 0 <= i < |chain| :: LinkedAt(c, chain, i)
  {
    forall i | 0 <= i < |chain|
      ensures LinkedAt(c, chain, i)
    {
      if i > 0 {
        assert StepAt(At(c, now), chain, i);
      }
    }
  }

  lemma HistoryIsNamed(c: Codec, now: int, disk: Disk, chain: seq<Record>)
    requires IsHistory(At(c, now), disk, chain)
    ensures NamedChain(c, disk, chain)
  {
    HistoryHasRecordNames(At(c, now), disk, chain);
    HistoryIsStored(c, now, disk, chain);
    HistoryIsLinked(c, now, chain);
  }

  lemma SettledIsNamed(c: Codec, disk: Disk, chain: seq<Record>)
    requires Settled(c, disk, chain)
    ensures Names(c, disk, chain, |chain|)
    ensures forall name | name in Files(disk) :: IsRecordName(name)
  {
    if chain != [] {
      var now: int :| IsHistory(At(c, now), disk, chain);
      HistoryIsNamed(c, now, disk, chain);
      HistoryHasRecordNames(At(c, now), disk, chain);
    }
  }

  lemma FreshIsLinear(c: Codec, s: System, chain: seq<Record>)
    requires IsFresh(c, s, chain)
    ensures Linear(c, s, chain, |chain|)
  {
    SettledIsNamed(c, s.disk, chain);
    forall i | 0 <= i < |s.publishers|
      ensures FitsAt(c, s, chain, |chain|, i)
    {
    }
  }

  // ---- what is accepted ----

  ghost predicate NobodyBusy(s: System) {
    forall i | 0 <= i < |s.publishers| :: !IsBusy(s.publishers[i].place)
  }

  ghost predicate InOrder(chain: seq<Record>) {
    forall i | 0 < i < |chain| :: !StringLess(chain[i].at, chain[i - 1].at)
  }

  /** Nobody is between its first call that writes and its last, and the times of the chain are in order and
      can be read at `now`. */
  ghost predicate Acceptable(c: Codec, s: System, chain: seq<Record>, now: int) {
    chain != [] && NobodyBusy(s) && Datable(c, now, chain) && InOrder(chain)
  }

  lemma AcceptedIsCurrent(c: Codec, disk: Disk, chain: seq<Record>, known: nat, now: int)
    requires Names(c, disk, chain, known) && IsHistory(At(c, now), disk, chain)
    ensures known == |chain|
  {
    LastIsRead(c, now, disk, chain);
    assert IsStored(c, disk, chain[known - 1]) && IsStored(c, disk, chain[|chain| - 1]);
    SamePayload(c, chain[known - 1], chain[|chain| - 1]);
  }

  lemma IdleWithout(c: Codec, req: Request, disk: Disk, chain: seq<Record>, place: Place)
    requires Fits(c, req, disk, chain, |chain|, place) && forall name | name in Files(disk) :: IsRecordName(name)
    ensures !IsBusy(place)
  {
  }

  lemma AcceptedIsIdle(c: Codec, s: System, chain: seq<Record>, known: nat, now: int)
    requires Linear(c, s, chain, known) && IsHistory(At(c, now), s.disk, chain)
    ensures NobodyBusy(s)
  {
    AcceptedIsCurrent(c, s.disk, chain, known, now);
    HistoryHasRecordNames(At(c, now), s.disk, chain);
    forall i | 0 <= i < |s.publishers|
      ensures !IsBusy(s.publishers[i].place)
    {
      assert FitsAt(c, s, chain, known, i);
      IdleWithout(c, s.publishers[i].request, s.disk, chain, s.publishers[i].place);
    }
  }

  lemma ChainIsValid(c: Codec, disk: Disk, chain: seq<Record>, now: int)
    requires NamedChain(c, disk, chain) && Datable(c, now, chain)
    ensures forall i | 0 <= i < |chain| :: Valid(At(c, now), chain[i]) && Stores(At(c, now), Files(disk), chain[i])
  {
    forall i | 0 <= i < |chain|
      ensures Valid(At(c, now), chain[i]) && Stores(At(c, now), Files(disk), chain[i])
    {
      assert IsStored(c, disk, chain[i]);
      var seenAt: int :| Read(c, seenAt, chain[i].payload) == Some(chain[i]);
      ValidAt(c, seenAt, now, chain[i]);
    }
  }

  lemma ChainIsLinked(c: Codec, disk: Disk, chain: seq<Record>, now: int)
    requires NamedChain(c, disk, chain) && InOrder(chain)
    ensures Linked(At(c, now), chain)
  {
    forall i | 0 < i < |chain|
      ensures StepAt(At(c, now), chain, i)
    {
      assert LinkedAt(c, chain, i);
    }
    assert chain != [] ==> LinkedAt(c, chain, 0);
  }

  lemma NothingIsHeld(s: System, name: string)
    requires NobodyBusy(s)
    ensures !IsHeld(s, name)
  {
  }

  lemma IdleHasNoTemporary(c: Codec, s: System, chain: seq<Record>, known: nat)
    requires Linear(c, s, chain, known) && NobodyBusy(s)
    ensures known == |chain| && forall name | name in Files(s.disk) :: IsNamed(chain, name)
  {
    forall name | name in Files(s.disk)
      ensures IsNamed(chain, name)
    {
      NothingIsHeld(s, name);
    }
  }

  lemma IdleIsHistory(c: Codec, s: System, chain: seq<Record>, known: nat, now: int)
    requires Linear(c, s, chain, known) && Acceptable(c, s, chain, now)
    ensures IsHistory(At(c, now), s.disk, chain)
  {
    ChainIsValid(c, s.disk, chain, now);
    ChainIsLinked(c, s.disk, chain, now);
    IdleHasNoTemporary(c, s, chain, known);
    assert IsStored(c, s.disk, chain[0]);
  }

  /** Without a fork there is one candidate for a history, and this is when it is one. */
  lemma LinearIsAcceptedIff(c: Codec, s: System, chain: seq<Record>, known: nat, now: int)
    requires Linear(c, s, chain, known)
    ensures Accepted(At(c, now), s.disk) <==> Acceptable(c, s, chain, now)
    ensures forall found | IsHistory(At(c, now), s.disk, found) :: found == chain
  {
    forall found | IsHistory(At(c, now), s.disk, found)
      ensures found == chain && Acceptable(c, s, chain, now)
    {
      HistoryIsChain(c, now, s.disk, chain, found);
      AcceptedIsIdle(c, s, chain, known, now);
      HistoryIsDatable(c, now, s.disk, chain);
      forall i | 0 < i < |chain|
        ensures !StringLess(chain[i].at, chain[i - 1].at)
      {
        assert StepAt(At(c, now), chain, i);
      }
    }
    if Acceptable(c, s, chain, now) {
      IdleIsHistory(c, s, chain, known, now);
    }
  }

  /** The directories that can be reached: those with a fork, which stay refused, and those whose records go
      on from the old history and which are accepted exactly when nobody is busy and the times are in order. */
  lemma ReachableDisks(c: Codec, s: System, chain: seq<Record>, schedule: seq<Event>)
    returns (longer: seq<Record>, known: nat)
    requires IsFresh(c, s, chain)
    ensures var end := Run(c, s, schedule);
      if Forked(c, end.disk) then forall more, now :: !Accepted(At(c, now), Run(c, end, more).disk)
      else
        && Extends(c, s, chain, longer) && Linear(c, end, longer, known)
        && forall now :: Accepted(At(c, now), end.disk) <==> Acceptable(c, end, longer, now)
  {
    FreshIsLinear(c, s, chain);
    LinearIsSound(c, s, chain, |chain|);
    RunGrows(c, s, schedule);
    longer, known := RunExtendsOrForks(c, s, schedule, chain, |chain|);
    var end := Run(c, s, schedule);
    if Forked(c, end.disk) {
      forall more, now
        ensures !Accepted(At(c, now), Run(c, end, more).disk)
      {
        ForkIsFatal(c, end, more, now);
      }
    } else {
      forall now
        ensures Accepted(At(c, now), end.disk) <==> Acceptable(c, end, longer, now)
      {
        LinearIsAcceptedIff(c, end, longer, known, now);
      }
    }
  }

  /** Whatever else happened, the record of a publication that reported success is in every later history,
      and so is the one that a publication found current. */
  lemma PublishedIsKept(c: Codec, s: System, chain: seq<Record>, schedule: seq<Event>, who: nat, now: int, found: seq<Record>)
    requires IsFresh(c, s, chain) && who < |s.publishers|
    requires IsHistory(At(c, now), Run(c, s, schedule).disk, found)
    ensures who < |Run(c, s, schedule).publishers|
    ensures var place := Run(c, s, schedule).publishers[who].place;
      place.Done? && !place.outcome.Refused? ==> place.outcome.record in found
  {
    var end := Run(c, s, schedule);
    var longer, known := ReachableDisks(c, s, chain, schedule);
    RunKeepsPublishers(c, s, schedule);
    assert Accepted(At(c, now), end.disk);
    if Forked(c, end.disk) {
      ForkIsRefused(c, end.disk, now);
    } else {
      LinearIsAcceptedIff(c, end, longer, known, now);
      DoneIsAmong(c, end, longer, known, who);
    }
  }

  lemma DoneIsAmong(c: Codec, s: System, chain: seq<Record>, known: nat, who: nat)
    requires Linear(c, s, chain, known) && who < |s.publishers|
    ensures var place := s.publishers[who].place;
      place.Done? && !place.outcome.Refused? ==> place.outcome.record in chain
  {
    assert FitsAt(c, s, chain, known, who);
  }

  lemma {:induction false} RunKeepsPublishers(c: Codec, s: System, schedule: seq<Event>)
    ensures |Run(c, s, schedule).publishers| == |s.publishers|
    decreases |schedule|
  {
    if schedule != [] {
      RunKeepsPublishers(c, Advance(c, s, schedule[0]), schedule[1..]);
    }
  }

  // ---- crashes among other publishers ----

  lemma {:induction false} RunConcat(c: Codec, s: System, first: seq<Event>, rest: seq<Event>)
    ensures Run(c, s, first + rest) == Run(c, Run(c, s, first), rest)
    decreases |first|
  {
    if first == [] {
      assert first + rest == rest;
    } else {
      assert (first + rest)[1..] == first[1..] + rest;
      RunConcat(c, Advance(c, s, first[0]), first[1..], rest);
    }
  }

  /** Who is never scheduled again stays where it is. */
  lemma {:induction false} CrashedStays(c: Codec, s: System, schedule: seq<Event>, who: nat)
    requires who < |s.publishers| && forall e | e in schedule :: e.who != who
    ensures var end := Run(c, s, schedule); who < |end.publishers| && end.publishers[who] == s.publishers[who]
    decreases |schedule|
  {
    if schedule != [] {
      CrashedStays(c, Advance(c, s, schedule[0]), schedule[1..], who);
    }
  }

  /** A crash between the first call that writes and the last is fatal whatever the others do, before it or
      after it: no directory reached from there is accepted. */
  lemma CrashIsFatal(c: Codec, s: System, chain: seq<Record>, first: seq<Event>, rest: seq<Event>, who: nat, now: int)
    requires IsFresh(c, s, chain) && who < |Run(c, s, first).publishers|
    requires IsBusy(Run(c, s, first).publishers[who].place)
    requires forall e | e in rest :: e.who != who
    ensures !Accepted(At(c, now), Run(c, s, first + rest).disk)
  {
    RunConcat(c, s, first, rest);
    CrashedStays(c, Run(c, s, first), rest, who);
    var end := Run(c, s, first + rest);
    var longer, known := ReachableDisks(c, s, chain, first + rest);
    if Forked(c, end.disk) {
      ForkIsRefused(c, end.disk, now);
    }
  }
}
