/** Whole runs: any number of publishers, any interleaving of their filesystem calls, and crashes
    anywhere (a crashed publisher is one that is never scheduled again). */
module ActivationRuns {
  import opened ActivationRecords
  import opened ActivationChain
  import opened ActivationPublish

  datatype Publisher = Publisher(request: Request, place: Place)

  datatype System = System(disk: Disk, publishers: seq<Publisher>)

  datatype Event = Event(who: nat, input: Input)

  ghost function Advance(c: Codec, s: System, e: Event): System {
    if e.who >= |s.publishers| then s
    else
      var p := s.publishers[e.who];
      var (disk, place) := Step(c, p.request, s.disk, p.place, e.input);
      System(disk, s.publishers[e.who := p.(place := place)])
  }

  ghost function Run(c: Codec, s: System, schedule: seq<Event>): System
    decreases |schedule|
  {
    if schedule == [] then s else Run(c, Advance(c, s, schedule[0]), schedule[1..])
  }

  /** The temporaries a publisher holds are not records. */
  ghost predicate HoldsTemporary(place: Place) {
    match place
    case Staged(_, name) => !IsRecordName(name)
    case Written(_, name) => !IsRecordName(name)
    case Collided(name) => !IsRecordName(name)
    case LinkedRecord(_, name) => !IsRecordName(name)
    case _ => true
  }

  ghost predicate Sound(s: System) {
    forall i | 0 <= i < |s.publishers| :: HoldsTemporary(s.publishers[i].place)
  }

  /** Every record of `before` is still there, unchanged. */
  ghost predicate Grows(before: Disk, after: Disk) {
    && (before.records.Some? ==> after.records.Some?)
    && forall name | name in Files(before) && IsRecordName(name) ::
      name in Files(after) && Files(after)[name] == Files(before)[name]
  }

  lemma StepGrows(c: Codec, req: Request, disk: Disk, place: Place, input: Input)
    requires HoldsTemporary(place)
    ensures var (disk', place') := Step(c, req, disk, place, input); Grows(disk, disk') && HoldsTemporary(place')
  {
    if place.Prepared? && IsTemporaryFor(input.name, FileName(place.record.id)) {
      TemporaryIsNoRecord(input.name, FileName(place.record.id));
    }
  }

  lemma {:induction false} RunGrows(c: Codec, s: System, schedule: seq<Event>)
    requires Sound(s)
    ensures Sound(Run(c, s, schedule)) && Grows(s.disk, Run(c, s, schedule).disk)
    decreases |schedule|
  {
    if schedule != [] {
      var e := schedule[0];
      if e.who < |s.publishers| {
        StepGrows(c, s.publishers[e.who].request, s.disk, s.publishers[e.who].place, e.input);
      }
      RunGrows(c, Advance(c, s, e), schedule[1..]);
    }
  }

  /** A record of the earlier history is a record of the later one. */
  lemma RecordSurvives(c: Codec, seenAt: int, readAt: int, before: Disk, after: Disk, earlier: seq<Record>, later: seq<Record>, i: nat)
    returns (j: nat)
    requires IsHistory(At(c, seenAt), before, earlier) && IsHistory(At(c, readAt), after, later) && Grows(before, after)
    requires i < |earlier|
    ensures j < |later| && later[j] == earlier[i]
  {
    var name := FileName(earlier[i].id);
    FileNameIsInjective(earlier[i].id, earlier[i].id);
    assert Stores(At(c, seenAt), before.records.value, earlier[i]) && Valid(At(c, seenAt), earlier[i]);
    assert name in after.records.value;
    assert IsNamed(later, name);
    j :| 0 <= j < |later| && name == FileName(later[j].id);
    FileNameIsInjective(earlier[i].id, later[j].id);
    assert Stores(At(c, readAt), after.records.value, later[j]) && Valid(At(c, readAt), later[j]);
    RereadLater(c, seenAt, readAt, earlier[i].payload);
  }

  /** A record names its predecessor, and no two records share an id. */
  lemma SamePosition(a: Reader, b: Reader, earlier: seq<Record>, later: seq<Record>, i: nat, j: nat)
    requires Linked(a, earlier) && Linked(b, later) && DistinctIds(later)
    requires 0 < i < |earlier| && j < |later| && later[j] == earlier[i]
    requires i - 1 < |later| && later[i - 1] == earlier[i - 1]
    ensures i == j
  {
    OnlyRootHasNoPredecessor(a, earlier, i);
    OnlyRootHasNoPredecessor(b, later, j);
    assert StepAt(a, earlier, i) && StepAt(b, later, j);
    assert later[j - 1].id == later[i - 1].id;
  }

  /** The earlier history is a prefix of the later one. */
  lemma {:induction false} PrefixUpTo(c: Codec, seenAt: int, readAt: int, before: Disk, after: Disk, earlier: seq<Record>, later: seq<Record>, i: nat)
    requires IsHistory(At(c, seenAt), before, earlier) && IsHistory(At(c, readAt), after, later) && Grows(before, after)
    requires i < |earlier|
    ensures i < |later| && later[i] == earlier[i]
  {
    var j := RecordSurvives(c, seenAt, readAt, before, after, earlier, later, i);
    if i == 0 {
      OnlyRootHasNoPredecessor(At(c, readAt), later, j);
    } else {
      PrefixUpTo(c, seenAt, readAt, before, after, earlier, later, i - 1);
      SamePosition(At(c, seenAt), At(c, readAt), earlier, later, i, j);
    }
  }

  lemma HistoryIsPrefix(c: Codec, seenAt: int, readAt: int, before: Disk, after: Disk, earlier: seq<Record>, later: seq<Record>)
    requires IsHistory(At(c, seenAt), before, earlier) && IsHistory(At(c, readAt), after, later) && Grows(before, after)
    ensures earlier <= later
  {
    forall i | 0 <= i < |earlier|
      ensures i < |later| && later[i] == earlier[i]
    {
      PrefixUpTo(c, seenAt, readAt, before, after, earlier, later, i);
    }
    PrefixUpTo(c, seenAt, readAt, before, after, earlier, later, |earlier| - 1);
  }

  /** Append-only: whatever the publishers do between two moments, what the loader accepts at the
      first is a prefix of what it accepts at the second. */
  lemma AcceptedHistoryIsAppendOnly(c: Codec, s: System, schedule: seq<Event>, seenAt: int, readAt: int, earlier: seq<Record>, later: seq<Record>)
    requires Sound(s)
    requires IsHistory(At(c, seenAt), s.disk, earlier)
    requires IsHistory(At(c, readAt), Run(c, s, schedule).disk, later)
    ensures earlier <= later
  {
    RunGrows(c, s, schedule);
    HistoryIsPrefix(c, seenAt, readAt, s.disk, Run(c, s, schedule).disk, earlier, later);
  }
}
