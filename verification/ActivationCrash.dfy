/** One publisher on its own: what it leaves behind when it completes, and when it crashes between
    any two filesystem calls. */
module ActivationCrash {
  import opened Options
  import opened ActivationRecords
  import opened ActivationChain
  import opened ActivationPublish
  import opened ActivationRuns

  /** The disk and place after the publisher took these steps; any list may be the last before a crash. */
  ghost function Solo(c: Codec, req: Request, disk: Disk, place: Place, inputs: seq<Input>): (Disk, Place)
    decreases |inputs|
  {
    if inputs == [] then (disk, place)
    else
      var (disk', place') := Step(c, req, disk, place, inputs[0]);
      Solo(c, req, disk', place', inputs[1..])
  }

  function WithFile(disk: Disk, name: string, payload: Bytes): Disk {
    WithFiles(disk, Files(disk)[name := payload])
  }

  ghost predicate Unused(disk: Disk, record: Record, name: string) {
    !IsRecordName(name) && name !in Files(disk) && name != FileName(record.id)
  }

  /** The disk at each place, relative to the disk `d0` publication started on. */
  ghost predicate Phase(c: Codec, req: Request, d0: Disk, chain: seq<Record>, disk: Disk, place: Place) {
    match place
    case Start => disk == d0
    case Exists => disk == d0 && d0.current.Some?
    case Loading(payload) => disk == d0 && d0.current == Some(payload)
    case NeedDirectory(previous) => disk == d0 && previous == LastLink(c, chain)
    case Listing(previous) => disk == WithFiles(d0, Files(d0)) && previous == LastLink(c, chain)
    case Prepared(r) => disk == WithFiles(d0, Files(d0)) && IsSuccessor(c, req, chain, r)
    case Staged(r, name) => IsSuccessor(c, req, chain, r) && Unused(d0, r, name) && disk == WithFile(d0, name, [])
    case Written(r, name) => IsSuccessor(c, req, chain, r) && Unused(d0, r, name) && disk == WithFile(d0, name, r.payload)
    case Collided(name) =>
      !IsRecordName(name) && name in Files(disk) && WithFiles(disk, Files(disk) - {name}) == WithFiles(d0, Files(d0))
    case LinkedRecord(r, name) =>
      && IsSuccessor(c, req, chain, r) && Unused(d0, r, name) && FileName(r.id) !in Files(d0)
      && disk == WithFile(WithFile(d0, name, r.payload), FileName(r.id), r.payload)
    case Recorded(r) => HasOrphan(c, req, d0, chain, disk, r) && disk.scratch == d0.scratch
    case PointerStaged(r, name) => HasOrphan(c, req, d0, chain, disk, r) && IsExtra(d0.scratch, disk.scratch, name)
    case PointerWritten(r, name) =>
      HasOrphan(c, req, d0, chain, disk, r) && IsExtra(d0.scratch, disk.scratch, name) && disk.scratch[name] == r.payload
    case Done(outcome) => PublishResult(c, req, d0, disk, outcome)
  }

  /** The new record is stored but the pointer still names the old one. */
  ghost predicate HasOrphan(c: Codec, req: Request, d0: Disk, chain: seq<Record>, disk: Disk, r: Record) {
    && IsSuccessor(c, req, chain, r) && FileName(r.id) !in Files(d0)
    && disk.current == d0.current
    && disk.records == Some(Files(d0)[FileName(r.id) := r.payload])
  }

  ghost predicate IsExtra(before: map<string, Bytes>, after: map<string, Bytes>, name: string) {
    name !in before && name in after && after - {name} == before
  }

  lemma ListingPhase(c: Codec, req: Request, d0: Disk, chain: seq<Record>, files: map<string, Bytes>, now: int)
    requires IsRequest(req)
    ensures Phase(c, req, d0, chain, WithFiles(d0, Files(d0)), AfterListing(c, req, files, LastLink(c, chain), now))
  {
    if NewRecord(c, req, now, LastLink(c, chain)).Some? {
      NewRecordSucceeds(c, req, now, chain, NewRecord(c, req, now, LastLink(c, chain)).value);
    }
  }

  lemma ReadingStep(c: Codec, req: Request, d0: Disk, chain: seq<Record>, disk: Disk, place: Place, input: Input)
    requires IsRequest(req) && Settled(c, d0, chain) && Phase(c, req, d0, chain, disk, place)
    requires place.Start? || place.Exists? || place.Loading? || place.NeedDirectory? || place.Listing?
    ensures var (disk', place') := Step(c, req, disk, place, input); Phase(c, req, d0, chain, disk', place')
  {
    match place
    case Start | Exists | NeedDirectory(_) =>
    case Loading(payload) => LoadingFindsChain(c, req, d0, chain, payload, input.now);
    case Listing(_) => ListingPhase(c, req, d0, chain, Files(disk), input.now);
  }

  lemma StagingStep(c: Codec, req: Request, d0: Disk, chain: seq<Record>, disk: Disk, place: Place, input: Input)
    requires Phase(c, req, d0, chain, disk, place) && (place.Prepared? || place.Staged?)
    ensures var (disk', place') := Step(c, req, disk, place, input); Phase(c, req, d0, chain, disk', place')
  {
    if place.Prepared? && IsTemporaryFor(input.name, FileName(place.record.id)) {
      TemporaryIsNoRecord(input.name, FileName(place.record.id));
      FileNameIsInjective(place.record.id, place.record.id);
    }
    if place.Staged? {
      assert Files(d0)[place.temporary := []][place.temporary := place.record.payload] == Files(d0)[place.temporary := place.record.payload];
    }
  }

  lemma LinkStep(c: Codec, req: Request, d0: Disk, chain: seq<Record>, disk: Disk, place: Place, input: Input)
    requires Phase(c, req, d0, chain, disk, place) && (place.Written? || place.Collided?)
    ensures var (disk', place') := Step(c, req, disk, place, input); Phase(c, req, d0, chain, disk', place')
  {
    if place.Written? {
      assert Files(disk) - {place.temporary} == Files(d0);
    }
  }

  lemma UnlinkStep(c: Codec, req: Request, d0: Disk, chain: seq<Record>, disk: Disk, place: Place, input: Input)
    requires Phase(c, req, d0, chain, disk, place) && place.LinkedRecord?
    ensures var (disk', place') := Step(c, req, disk, place, input); Phase(c, req, d0, chain, disk', place')
  {
    assert Files(disk) - {place.temporary} == Files(d0)[FileName(place.record.id) := place.record.payload];
  }

  lemma PointerStep(c: Codec, req: Request, d0: Disk, chain: seq<Record>, disk: Disk, place: Place, input: Input)
    requires Phase(c, req, d0, chain, disk, place)
    requires place.Recorded? || place.PointerStaged?
    ensures var (disk', place') := Step(c, req, disk, place, input); Phase(c, req, d0, chain, disk', place')
  {
    if place.Recorded? && input.name !in disk.scratch {
      assert disk.scratch[input.name := []] - {input.name} == d0.scratch;
    }
    if place.PointerStaged? {
      assert disk.scratch[place.temporary := place.record.payload] - {place.temporary} == disk.scratch - {place.temporary};
    }
  }

  lemma ReplaceStep(c: Codec, req: Request, d0: Disk, chain: seq<Record>, disk: Disk, place: Place, input: Input)
    requires Settled(c, d0, chain) && Phase(c, req, d0, chain, disk, place) && place.PointerWritten?
    ensures Step(c, req, disk, place, input) == (Appended(d0, place.record), Done(Published(place.record)))
    ensures Phase(c, req, d0, chain, Appended(d0, place.record), Done(Published(place.record)))
  {
  }

  lemma PhaseStep(c: Codec, req: Request, d0: Disk, chain: seq<Record>, disk: Disk, place: Place, input: Input)
    requires IsRequest(req) && Settled(c, d0, chain) && Phase(c, req, d0, chain, disk, place)
    ensures var (disk', place') := Step(c, req, disk, place, input); Phase(c, req, d0, chain, disk', place')
  {
    match place
    case Start | Exists | Loading(_) | NeedDirectory(_) | Listing(_) =>
      ReadingStep(c, req, d0, chain, disk, place, input);
    case Prepared(_) | Staged(_, _) =>
      StagingStep(c, req, d0, chain, disk, place, input);
    case Written(_, _) | Collided(_) =>
      LinkStep(c, req, d0, chain, disk, place, input);
    case LinkedRecord(_, _) =>
      UnlinkStep(c, req, d0, chain, disk, place, input);
    case Recorded(_) | PointerStaged(_, _) =>
      PointerStep(c, req, d0, chain, disk, place, input);
    case PointerWritten(_, _) =>
      ReplaceStep(c, req, d0, chain, disk, place, input);
    case Done(_) =>
  }

  lemma HistoryIsUnique(c: Codec, now: int, later: int, disk: Disk, a: seq<Record>, b: seq<Record>)
    requires IsHistory(At(c, now), disk, a) && IsHistory(At(c, later), disk, b)
    ensures a == b
  {
    HistoryIsPrefix(c, now, later, disk, disk, a, b);
    HistoryIsPrefix(c, later, now, disk, disk, b, a);
  }

  lemma LastIsRead(c: Codec, now: int, disk: Disk, chain: seq<Record>)
    requires IsHistory(At(c, now), disk, chain)
    ensures disk.current.Some? && Read(c, now, disk.current.value) == Some(chain[|chain| - 1])
  {
  }

  /** A load that succeeds sees exactly the chain publication started from. */
  lemma LoadingFindsChain(c: Codec, req: Request, d0: Disk, chain: seq<Record>, payload: Bytes, now: int)
    requires Settled(c, d0, chain) && d0.current == Some(payload)
    ensures Phase(c, req, d0, chain, d0, AfterLoading(c, req, d0, payload, now))
  {
    if Accepted(At(c, now), d0) {
      var found: seq<Record> :| IsHistory(At(c, now), d0, found);
      var seenAt: int :| IsHistory(At(c, seenAt), d0, chain);
      HistoryIsUnique(c, now, seenAt, d0, found, chain);
      LastIsRead(c, now, d0, chain);
      LoadedPhase(c, req, d0, chain, now);
    }
  }

  lemma LoadedPhase(c: Codec, req: Request, d0: Disk, chain: seq<Record>, now: int)
    requires IsHistory(At(c, now), d0, chain)
    ensures var current := chain[|chain| - 1];
      match Decide(c, req, Some(current))
      case Keep => Phase(c, req, d0, chain, d0, Done(AlreadyCurrent(current)))
      case Reject => true
      case Append(previous) => Phase(c, req, d0, chain, d0, NeedDirectory(previous))
  {
    if Decide(c, req, Some(chain[|chain| - 1])).Keep? {
      KeptIsCurrent(c, req, now, d0, chain);
    }
  }

  lemma {:induction false} SoloPhase(c: Codec, req: Request, d0: Disk, chain: seq<Record>, disk: Disk, place: Place, inputs: seq<Input>)
    requires IsRequest(req) && Settled(c, d0, chain) && Phase(c, req, d0, chain, disk, place)
    ensures var (disk', place') := Solo(c, req, disk, place, inputs); Phase(c, req, d0, chain, disk', place')
    decreases |inputs|
  {
    if inputs != [] {
      PhaseStep(c, req, d0, chain, disk, place, inputs[0]);
      var (disk', place') := Step(c, req, disk, place, inputs[0]);
      SoloPhase(c, req, d0, chain, disk', place', inputs[1..]);
    }
  }

  /** Neither the loader nor any later publication accepts this disk. */
  ghost predicate Stuck(c: Codec, disk: Disk) {
    && (forall now :: !Accepted(At(c, now), disk))
    && (disk.current == None ==> Files(disk) != map[])
  }

  ghost predicate SameHistory(c: Codec, before: Disk, after: Disk) {
    forall now, chain :: IsHistory(At(c, now), after, chain) <==> IsHistory(At(c, now), before, chain)
  }

  lemma ForeignFileIsRejected(c: Codec, disk: Disk, name: string)
    requires name in Files(disk) && !IsRecordName(name)
    ensures Stuck(c, disk)
  {
    forall now
      ensures !Accepted(At(c, now), disk)
    {
      HistoryEntries(At(c, now), disk);
    }
  }

  lemma OrphanIsRejected(c: Codec, req: Request, d0: Disk, chain: seq<Record>, disk: Disk, r: Record)
    requires Settled(c, d0, chain) && HasOrphan(c, req, d0, chain, disk, r)
    ensures Stuck(c, disk)
  {
    assert FileName(r.id) in Files(disk);
    forall now
      ensures !Accepted(At(c, now), disk)
    {
      if Accepted(At(c, now), disk) {
        var found: seq<Record> :| IsHistory(At(c, now), disk, found);
        PointerFixesDirectory(c, d0, chain, disk, found, now, FileName(r.id));
      }
    }
  }

  /** While the pointer stays, an accepted directory has no new file. */
  lemma PointerFixesDirectory(c: Codec, d0: Disk, chain: seq<Record>, disk: Disk, found: seq<Record>, now: int, name: string)
    requires chain != [] && Settled(c, d0, chain) && Grows(d0, disk) && disk.current == d0.current
    requires IsHistory(At(c, now), disk, found) && name in Files(disk)
    ensures name in Files(d0)
  {
    var seenAt: int :| IsHistory(At(c, seenAt), d0, chain);
    HistoryIsPrefix(c, seenAt, now, d0, disk, chain, found);
    LastIsRead(c, seenAt, d0, chain);
    LastIsRead(c, now, disk, found);
    RereadLater(c, seenAt, now, disk.current.value);
    assert found[|chain| - 1].id == found[|found| - 1].id;
    StoredRecordIsInHistory(c, seenAt, d0, chain, disk, found, name);
  }

  lemma StoredRecordIsInHistory(c: Codec, now: int, d0: Disk, chain: seq<Record>, disk: Disk, found: seq<Record>, name: string)
    requires IsHistory(At(c, now), d0, chain) && found == chain
    requires Covers(At(c, now), Files(disk), found) && name in Files(disk)
    ensures name in Files(d0)
  {
    assert IsNamed(found, name);
    var i :| 0 <= i < |found| && name == FileName(found[i].id);
    assert Stores(At(c, now), Files(d0), chain[i]);
  }

  /** Publication is crash-safe: stopped anywhere it leaves the old history, the new one, or a disk
      that nothing accepts until it is repaired by hand. */
  lemma CrashAnywhere(c: Codec, req: Request, d0: Disk, chain: seq<Record>, inputs: seq<Input>)
    requires IsRequest(req) && Settled(c, d0, chain)
    ensures var (disk, place) := Solo(c, req, d0, Start, inputs);
      match place
      case Done(Published(r)) => IsSuccessor(c, req, chain, r) && disk == Appended(d0, r) && FileName(r.id) !in Files(d0)
      case Done(_) => SameHistory(c, d0, disk)
      case Start => disk == d0
      case Exists => disk == d0
      case Loading(_) => disk == d0
      case NeedDirectory(_) => disk == d0
      case Listing(_) => SameHistory(c, d0, disk)
      case Prepared(_) => SameHistory(c, d0, disk)
      case _ => Stuck(c, disk)
  {
    SoloPhase(c, req, d0, chain, d0, Start, inputs);
    var (disk, place) := Solo(c, req, d0, Start, inputs);
    match place
    case Staged(_, name) => ForeignFileIsRejected(c, disk, name);
    case Written(_, name) => ForeignFileIsRejected(c, disk, name);
    case Collided(name) => ForeignFileIsRejected(c, disk, name);
    case LinkedRecord(_, name) => ForeignFileIsRejected(c, disk, name);
    case Recorded(r) => OrphanIsRejected(c, req, d0, chain, disk, r);
    case PointerStaged(r, _) => OrphanIsRejected(c, req, d0, chain, disk, r);
    case PointerWritten(r, _) => OrphanIsRejected(c, req, d0, chain, disk, r);
    case Done(Published(r)) =>
      var other :| Settled(c, d0, other) && IsSuccessor(c, req, other, r);
      SettledIsUnique(c, d0, chain, other);
    case _ => DirectoryKeepsHistory(c, d0, chain);
  }

  lemma SettledIsUnique(c: Codec, disk: Disk, a: seq<Record>, b: seq<Record>)
    requires Settled(c, disk, a) && Settled(c, disk, b)
    ensures a == b
  {
    if a != [] && b != [] {
      var t1: int :| IsHistory(At(c, t1), disk, a);
      var t2: int :| IsHistory(At(c, t2), disk, b);
      HistoryIsUnique(c, t1, t2, disk, a, b);
    }
  }

  lemma DirectoryKeepsHistory(c: Codec, disk: Disk, chain: seq<Record>)
    requires Settled(c, disk, chain)
    ensures SameHistory(c, disk, WithFiles(disk, Files(disk)))
  {
  }

  /** Where a publication can be that found a stuck disk. */
  ghost predicate Refusing(disk: Disk, place: Place) {
    match place
    case Start => true
    case Exists => disk.current.Some?
    case Loading(payload) => disk.current == Some(payload)
    case NeedDirectory(previous) => previous == None && disk.current == None
    case Listing(previous) => previous == None && disk.current == None
    case Done(outcome) => outcome == Refused
    case _ => false
  }

  lemma StuckStep(c: Codec, req: Request, disk: Disk, place: Place, input: Input)
    requires Stuck(c, disk) && Refusing(disk, place)
    ensures var (disk', place') := Step(c, req, disk, place, input); disk' == disk && Refusing(disk, place')
  {
    assert place.Loading? ==> disk.(current := Some(place.payload)) == disk;
  }

  /** A stuck disk stays as it is and refuses every publication. */
  lemma {:induction false} StuckRefuses(c: Codec, req: Request, disk: Disk, place: Place, inputs: seq<Input>)
    requires Stuck(c, disk) && Refusing(disk, place)
    ensures var (disk', place') := Solo(c, req, disk, place, inputs);
      disk' == disk && (place'.Done? ==> place'.outcome == Refused)
    decreases |inputs|
  {
    if inputs != [] {
      StuckStep(c, req, disk, place, inputs[0]);
      var (disk', place') := Step(c, req, disk, place, inputs[0]);
      StuckRefuses(c, req, disk, place', inputs[1..]);
    }
  }

  /** When every record of a list can be dated at `now` and none runs backwards. */
  ghost predicate Datable(c: Codec, now: int, chain: seq<Record>) {
    forall i | 0 <= i < |chain| :: c.timestampOk(now, chain[i].at)
  }

  ghost predicate Chronological(chain: seq<Record>, r: Record) {
    chain != [] ==> !StringLess(r.at, chain[|chain| - 1].at)
  }

  lemma ValidAt(c: Codec, seenAt: int, now: int, r: Record)
    requires Read(c, seenAt, r.payload) == Some(r)
    ensures Valid(At(c, now), r) <==> c.timestampOk(now, r.at)
  {
  }

  lemma HistoryIsDatable(c: Codec, now: int, disk: Disk, chain: seq<Record>)
    requires IsHistory(At(c, now), disk, chain)
    ensures Datable(c, now, chain)
  {
  }

  lemma EndsWithNewRecord(c: Codec, disk: Disk, r: Record, stamped: int, now: int, found: seq<Record>)
    requires Read(c, stamped, r.payload) == Some(r) && disk.current == Some(r.payload)
    requires IsHistory(At(c, now), disk, found)
    ensures found[|found| - 1] == r
  {
  }

  lemma LinkFixesLength(c: Codec, reader: Reader, chain: seq<Record>, r: Record, found: seq<Record>)
    requires reader.sha256 == c.sha256 && Linked(reader, found) && DistinctIds(found)
    requires found != [] && chain <= found && found[|found| - 1] == r && r.previous == LastLink(c, chain)
    ensures found == chain + [r]
  {
    var last := |found| - 1;
    OnlyRootHasNoPredecessor(reader, found, last);
    if chain != [] {
      assert StepAt(reader, found, last);
      assert found[last - 1].id == found[|chain| - 1].id;
    }
  }

  /** After publication, the only possible history is the old one with the new record at its end. */
  lemma AppendedHasOneHistory(c: Codec, req: Request, d0: Disk, chain: seq<Record>, r: Record, now: int, found: seq<Record>)
    requires Settled(c, d0, chain) && IsSuccessor(c, req, chain, r) && FileName(r.id) !in Files(d0)
    requires IsHistory(At(c, now), Appended(d0, r), found)
    ensures found == chain + [r]
  {
    var stamped: int :| Read(c, stamped, r.payload) == Some(r);
    EndsWithNewRecord(c, Appended(d0, r), r, stamped, now, found);
    if chain != [] {
      var seenAt: int :| IsHistory(At(c, seenAt), d0, chain);
      HistoryIsPrefix(c, seenAt, now, d0, Appended(d0, r), chain, found);
    }
    LinkFixesLength(c, At(c, now), chain, r, found);
  }

  lemma AppendedIsLinked(c: Reader, chain: seq<Record>, r: Record)
    requires Linked(c, chain) && (chain == [] ==> r.previous == None)
    requires chain != [] ==> Follows(c, chain[|chain| - 1], r)
    ensures Linked(c, chain + [r])
  {
    var longer := chain + [r];
    forall i | 0 < i < |longer|
      ensures StepAt(c, longer, i)
    {
      assert i < |chain| ==> StepAt(c, chain, i);
    }
  }

  lemma AppendedIsCovered(c: Reader, files: map<string, Bytes>, chain: seq<Record>, r: Record)
    requires Covers(c, files, chain) && DistinctIds(chain) && FileName(r.id) !in files
    ensures Covers(c, files[FileName(r.id) := r.payload], chain + [r]) && DistinctIds(chain + [r])
  {
    var longer, more := chain + [r], files[FileName(r.id) := r.payload];
    assert longer[|chain|] == r;
    forall i | 0 <= i < |longer|
      ensures Stores(c, more, longer[i]) && (i < |chain| ==> longer[i].id != r.id)
    {
      if i < |chain| {
        assert longer[i] == chain[i] && Stores(c, files, chain[i]);
      }
    }
    forall name | name in more
      ensures IsNamed(longer, name)
    {
      if name in files {
        assert IsNamed(chain, name);
        var i :| 0 <= i < |chain| && name == FileName(chain[i].id);
        assert longer[i] == chain[i];
      }
    }
  }

  lemma AppendedIsHistory(c: Codec, req: Request, d0: Disk, chain: seq<Record>, r: Record, now: int)
    requires Settled(c, d0, chain) && IsSuccessor(c, req, chain, r) && FileName(r.id) !in Files(d0)
    requires Datable(c, now, chain + [r]) && Chronological(chain, r)
    ensures IsHistory(At(c, now), Appended(d0, r), chain + [r])
  {
    var longer := chain + [r];
    assert longer[|chain|] == r;
    var stamped: int :| Read(c, stamped, r.payload) == Some(r);
    ValidAt(c, stamped, now, r);
    if chain == [] {
      AppendedIsCovered(At(c, now), Files(d0), chain, r);
      AppendedIsLinked(At(c, now), chain, r);
    } else {
      var seenAt: int :| IsHistory(At(c, seenAt), d0, chain);
      forall i | 0 <= i < |longer|
        ensures Valid(At(c, now), longer[i])
      {
        if i < |chain| {
          assert Valid(At(c, seenAt), chain[i]) && longer[i] == chain[i];
          ValidAt(c, seenAt, now, chain[i]);
        }
      }
      ChainFactsIgnoreClock(c, seenAt, now, d0, chain);
      AppendedIsCovered(At(c, now), Files(d0), chain, r);
      AppendedIsLinked(At(c, now), chain, r);
    }
  }

  lemma ChainFactsIgnoreClock(c: Codec, seenAt: int, now: int, disk: Disk, chain: seq<Record>)
    requires IsHistory(At(c, seenAt), disk, chain)
    ensures Covers(At(c, now), Files(disk), chain) && Linked(At(c, now), chain)
  {
    forall i | 0 <= i < |chain|
      ensures Stores(At(c, now), Files(disk), chain[i])
    {
      assert Stores(At(c, seenAt), Files(disk), chain[i]);
    }
    forall i | 0 < i < |chain|
      ensures StepAt(At(c, now), chain, i)
    {
      assert StepAt(At(c, seenAt), chain, i);
    }
  }

  /** publish never compares the new timestamp with the old one. So a completed publication is
      accepted exactly when the clock had not gone behind the current record (and, as for any
      history, nothing in it is dated in the future). */
  lemma PublishedIsAcceptedIff(c: Codec, req: Request, d0: Disk, chain: seq<Record>, r: Record, now: int)
    requires Settled(c, d0, chain) && IsSuccessor(c, req, chain, r) && FileName(r.id) !in Files(d0)
    ensures Accepted(At(c, now), Appended(d0, r)) <==> Datable(c, now, chain + [r]) && Chronological(chain, r)
    ensures Accepted(At(c, now), Appended(d0, r)) ==> IsHistory(At(c, now), Appended(d0, r), chain + [r])
  {
    if Datable(c, now, chain + [r]) && Chronological(chain, r) {
      AppendedIsHistory(c, req, d0, chain, r, now);
    }
    if Accepted(At(c, now), Appended(d0, r)) {
      var found: seq<Record> :| IsHistory(At(c, now), Appended(d0, r), found);
      AppendedHasOneHistory(c, req, d0, chain, r, now, found);
      HistoryIsDatable(c, now, Appended(d0, r), found);
      assert chain != [] ==> StepAt(At(c, now), found, |chain|);
    }
  }
}
