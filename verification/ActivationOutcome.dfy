/** An undisturbed publication, call by call, runs to the end that the state of the directory dictates. */
module ActivationOutcome {
  import opened Options
  import opened ActivationRecords
  import opened ActivationChain
  import opened ActivationPublish
  import opened ActivationCrash

  /** What the world supplies to a publication that nobody disturbs: two clock readings and two names. */
  function Uninterrupted(hasCurrent: bool, loadNow: int, stampNow: int, recordName: string, pointerName: string): seq<Input> {
    Reading(hasCurrent, loadNow) + Recording(stampNow, recordName) + Pointing(stampNow, pointerName)
  }

  function Reading(hasCurrent: bool, loadNow: int): seq<Input> {
    if hasCurrent then [Input(loadNow, ""), Input(loadNow, ""), Input(loadNow, "")] else [Input(loadNow, "")]
  }

  /** Directory, listing, then the record: stage, write, link, unlink. */
  function Recording(stampNow: int, name: string): seq<Input> {
    [Input(stampNow, name), Input(stampNow, name), Input(stampNow, name), Input(stampNow, name), Input(stampNow, name), Input(stampNow, name)]
  }

  /** The current file: stage, write, replace. */
  function Pointing(stampNow: int, name: string): seq<Input> {
    [Input(stampNow, name), Input(stampNow, name), Input(stampNow, name)]
  }

  ghost predicate FreshNames(disk: Disk, req: Request, recordName: string, pointerName: string) {
    && IsTemporaryFor(recordName, FileName(req.activationId)) && recordName !in Files(disk)
    && IsTemporaryFor(pointerName, CURRENT_NAME) && pointerName !in disk.scratch
  }

  lemma {:induction false} SoloConcat(c: Codec, req: Request, disk: Disk, place: Place, a: seq<Input>, b: seq<Input>)
    ensures var (d, p) := Solo(c, req, disk, place, a); Solo(c, req, disk, place, a + b) == Solo(c, req, d, p, b)
    decreases |a|
  {
    if a == [] {
      assert a + b == b;
    } else {
      var (d, p) := Step(c, req, disk, place, a[0]);
      assert (a + b)[1..] == a[1..] + b;
      SoloConcat(c, req, d, p, a[1..], b);
    }
  }

  lemma {:induction false} DoneStays(c: Codec, req: Request, disk: Disk, outcome: Outcome, inputs: seq<Input>)
    ensures Solo(c, req, disk, Done(outcome), inputs) == (disk, Done(outcome))
    decreases |inputs|
  {
    if inputs != [] {
      DoneStays(c, req, disk, outcome, inputs[1..]);
    }
  }

  lemma SoloOne(c: Codec, req: Request, disk: Disk, place: Place, i: Input)
    ensures Solo(c, req, disk, place, [i]) == Step(c, req, disk, place, i)
  {
    var (d, p) := Step(c, req, disk, place, i);
    assert [i][1..] == [];
  }

  lemma SoloCons(c: Codec, req: Request, disk: Disk, place: Place, i: Input, rest: seq<Input>)
    ensures var (d, p) := Step(c, req, disk, place, i); Solo(c, req, disk, place, [i] + rest) == Solo(c, req, d, p, rest)
  {
    assert ([i] + rest)[1..] == rest;
  }

  /** Where the reading half ends. */
  ghost function AfterReading(c: Codec, req: Request, disk: Disk, now: int): Place {
    if disk.current.None? then NeedDirectory(None)
    else if MayKeep(c, req, disk, now) then Done(AlreadyCurrent(AcceptedCurrent(c, disk, now).value))
    else if MayAppend(c, req, disk, now) then NeedDirectory(Predecessor(c, disk, now))
    else Done(Refused)
  }

  lemma ReadingRun(c: Codec, req: Request, disk: Disk, now: int)
    ensures Solo(c, req, disk, Start, Reading(disk.current.Some?, now)) == (disk, AfterReading(c, req, disk, now))
  {
    var i := Input(now, "");
    if disk.current.None? {
      SoloOne(c, req, disk, Start, i);
    } else {
      var payload := disk.current.value;
      assert [i, i, i] == [i] + ([i] + [i]);
      SoloCons(c, req, disk, Start, i, [i] + [i]);
      SoloCons(c, req, disk, Exists, i, [i]);
      SoloOne(c, req, disk, Loading(payload), i);
      LoadingDecides(c, req, disk, payload, now);
    }
  }

  lemma LoadingDecides(c: Codec, req: Request, disk: Disk, payload: Bytes, now: int)
    requires disk.current == Some(payload)
    ensures AfterLoading(c, req, disk.(current := Some(payload)), payload, now) == AfterReading(c, req, disk, now)
  {
    assert disk.(current := Some(payload)) == disk;
    if Accepted(At(c, now), disk) {
      AcceptedReads(c, disk, now);
      DecideMeans(c, req, AcceptedCurrent(c, disk, now).value);
    }
  }

  /** The recording half, from the directory to the record in its place. */
  lemma RecordingRun(c: Codec, req: Request, disk: Disk, previous: Option<Link>, now: int, name: string)
    requires IsTemporaryFor(name, FileName(req.activationId)) && name !in Files(disk)
    requires IsRequest(req) && (previous == None ==> Files(disk) == map[])
    ensures var (d, p) := Solo(c, req, disk, NeedDirectory(previous), Recording(now, name));
      var next := NewRecord(c, req, now, previous);
      if next.None? || FileName(next.value.id) in Files(disk) then d == WithFiles(disk, Files(disk)) && p == Done(Refused)
      else d == WithFiles(disk, Files(disk)[FileName(next.value.id) := next.value.payload]) && p == Recorded(next.value)
  {
    var i := Input(now, name);
    var d1 := WithFiles(disk, Files(disk));
    assert [i, i, i, i, i, i] == [i] + ([i] + [i, i, i, i]);
    SoloCons(c, req, disk, NeedDirectory(previous), i, [i] + [i, i, i, i]);
    SoloCons(c, req, d1, Listing(previous), i, [i, i, i, i]);
    var next := NewRecord(c, req, now, previous);
    if next.None? {
      DoneStays(c, req, d1, Refused, [i, i, i, i]);
    } else {
      NewRecordFields(c, req, now, previous, next.value);
      LinkingRun(c, req, d1, next.value, i);
    }
  }

  lemma StagingRun(c: Codec, req: Request, disk: Disk, r: Record, i: Input)
    requires disk.records.Some? && IsTemporaryFor(i.name, FileName(r.id)) && i.name !in Files(disk)
    ensures Solo(c, req, disk, Prepared(r), [i] + [i]) == (WithFiles(disk, Files(disk)[i.name := r.payload]), Written(r, i.name))
  {
    var files := Files(disk);
    var staged := WithFiles(disk, files[i.name := []]);
    assert files[i.name := []][i.name := r.payload] == files[i.name := r.payload];
    SoloCons(c, req, disk, Prepared(r), i, [i]);
    SoloOne(c, req, staged, Staged(r, i.name), i);
  }

  lemma LinkingRun(c: Codec, req: Request, disk: Disk, r: Record, i: Input)
    requires disk.records.Some? && IsTemporaryFor(i.name, FileName(r.id)) && i.name !in Files(disk)
    ensures var (d, p) := Solo(c, req, disk, Prepared(r), [i, i, i, i]);
      if FileName(r.id) in Files(disk) then d == disk && p == Done(Refused)
      else d == WithFiles(disk, Files(disk)[FileName(r.id) := r.payload]) && p == Recorded(r)
  {
    TemporaryIsNoRecord(i.name, FileName(r.id));
    FileNameIsInjective(r.id, r.id);
    StagingRun(c, req, disk, r, i);
    var written := WithFiles(disk, Files(disk)[i.name := r.payload]);
    assert [i, i, i, i] == ([i] + [i]) + ([i] + [i]);
    SoloConcat(c, req, disk, Prepared(r), [i] + [i], [i] + [i]);
    SoloCons(c, req, written, Written(r, i.name), i, [i]);
    UnlinkingRun(c, req, disk, r, i);
  }

  lemma UnlinkingRun(c: Codec, req: Request, disk: Disk, r: Record, i: Input)
    requires disk.records.Some? && i.name !in Files(disk) && i.name != FileName(r.id)
    ensures Solo(c, req, WithFiles(disk, Files(disk)[i.name := r.payload]), Collided(i.name), [i]) == (disk, Done(Refused))
    ensures Solo(c, req, WithFiles(disk, Files(disk)[i.name := r.payload][FileName(r.id) := r.payload]), LinkedRecord(r, i.name), [i])
      == (WithFiles(disk, Files(disk)[FileName(r.id) := r.payload]), Recorded(r))
  {
    var files := Files(disk);
    var written := files[i.name := r.payload];
    assert written - {i.name} == files;
    assert written[FileName(r.id) := r.payload] - {i.name} == files[FileName(r.id) := r.payload];
    SoloOne(c, req, WithFiles(disk, written), Collided(i.name), i);
    SoloOne(c, req, WithFiles(disk, written[FileName(r.id) := r.payload]), LinkedRecord(r, i.name), i);
  }

  lemma PointingRun(c: Codec, req: Request, disk: Disk, r: Record, now: int, name: string)
    requires IsTemporaryFor(name, CURRENT_NAME) && name !in disk.scratch
    ensures Solo(c, req, disk, Recorded(r), Pointing(now, name)) == (disk.(current := Some(r.payload)), Done(Published(r)))
  {
    var i := Input(now, name);
    var staged := disk.(scratch := disk.scratch[name := []]);
    var written := disk.(scratch := disk.scratch[name := r.payload]);
    assert disk.scratch[name := []][name := r.payload] == disk.scratch[name := r.payload];
    assert [i, i, i] == [i] + ([i] + [i]);
    SoloCons(c, req, disk, Recorded(r), i, [i] + [i]);
    SoloCons(c, req, staged, PointerStaged(r, name), i, [i]);
    SoloOne(c, req, written, PointerWritten(r, name), i);
    assert disk.scratch[name := r.payload] - {name} == disk.scratch;
  }

  /** Run without interference, call by call, publication ends exactly as the directory, the request and the
      clock dictate, within twelve calls. */
  lemma PublicationCompletes(c: Codec, req: Request, disk: Disk, loadNow: int, stampNow: int, recordName: string, pointerName: string)
    requires IsRequest(req) && FreshNames(disk, req, recordName, pointerName)
    ensures var (after, place) := Solo(c, req, disk, Start, Uninterrupted(disk.current.Some?, loadNow, stampNow, recordName, pointerName));
      place.Done? && Ends(c, req, disk, loadNow, stampNow, after, place.outcome)
  {
    var a, b, e := Reading(disk.current.Some?, loadNow), Recording(stampNow, recordName), Pointing(stampNow, pointerName);
    ReadingRun(c, req, disk, loadNow);
    SoloConcat(c, req, disk, Start, a, b);
    SoloConcat(c, req, disk, Start, a + b, e);
    var place := AfterReading(c, req, disk, loadNow);
    if place.Done? {
      DoneStays(c, req, disk, place.outcome, b);
      DoneStays(c, req, disk, place.outcome, e);
    } else if disk.current.None? && Files(disk) != map[] {
      SurvivingRecordsRefuse(c, req, disk, stampNow, recordName);
      DoneStays(c, req, WithFiles(disk, Files(disk)), Refused, e);
    } else {
      FromDirectory(c, req, disk, loadNow, stampNow, recordName, pointerName);
    }
  }

  /** Records without a current file stop every publication. */
  lemma SurvivingRecordsRefuse(c: Codec, req: Request, disk: Disk, now: int, name: string)
    requires Files(disk) != map[]
    ensures Solo(c, req, disk, NeedDirectory(None), Recording(now, name)) == (WithFiles(disk, Files(disk)), Done(Refused))
  {
    var i := Input(now, name);
    var d1 := WithFiles(disk, Files(disk));
    assert [i, i, i, i, i, i] == [i] + ([i] + [i, i, i, i]);
    SoloCons(c, req, disk, NeedDirectory(None), i, [i] + [i, i, i, i]);
    SoloCons(c, req, d1, Listing(None), i, [i, i, i, i]);
    DoneStays(c, req, d1, Refused, [i, i, i, i]);
  }

  lemma FromDirectory(c: Codec, req: Request, disk: Disk, loadNow: int, stampNow: int, recordName: string, pointerName: string)
    requires IsRequest(req) && FreshNames(disk, req, recordName, pointerName) && MayAppend(c, req, disk, loadNow)
    ensures var (d, p) := Solo(c, req, disk, NeedDirectory(Predecessor(c, disk, loadNow)), Recording(stampNow, recordName));
      var (after, place) := Solo(c, req, d, p, Pointing(stampNow, pointerName));
      place.Done? && Ends(c, req, disk, loadNow, stampNow, after, place.outcome)
  {
    var previous := Predecessor(c, disk, loadNow);
    RecordingRun(c, req, disk, previous, stampNow, recordName);
    var (d, p) := Solo(c, req, disk, NeedDirectory(previous), Recording(stampNow, recordName));
    if disk.current.Some? {
      AcceptedReads(c, disk, loadNow);
    }
    if p.Done? {
      DoneStays(c, req, d, Refused, Pointing(stampNow, pointerName));
    } else {
      PointingRun(c, req, d, p.record, stampNow, pointerName);
    }
  }

  /** The run publishes exactly when there is a next record. */
  lemma PublishesIff(c: Codec, req: Request, disk: Disk, loadNow: int, stampNow: int, recordName: string, pointerName: string, r: Record)
    requires IsRequest(req) && FreshNames(disk, req, recordName, pointerName)
    ensures var end := Solo(c, req, disk, Start, Uninterrupted(disk.current.Some?, loadNow, stampNow, recordName, pointerName));
      end == (Appended(disk, r), Done(Published(r))) <==> NextRecord(c, req, disk, loadNow, stampNow) == Some(r)
  {
    PublicationCompletes(c, req, disk, loadNow, stampNow, recordName, pointerName);
  }

  /** Whenever the clock has gone behind the current record, a publication that should go on completes, and
      leaves a directory that no later load accepts. */
  lemma RegressionIsFatal(c: Codec, req: Request, disk: Disk, chain: seq<Record>, loadNow: int, stampNow: int,
                          recordName: string, pointerName: string, r: Record)
    requires IsRequest(req) && FreshNames(disk, req, recordName, pointerName)
    requires IsHistory(At(c, loadNow), disk, chain) && NextRecord(c, req, disk, loadNow, stampNow) == Some(r)
    requires StringLess(r.at, chain[|chain| - 1].at)
    ensures Solo(c, req, disk, Start, Uninterrupted(true, loadNow, stampNow, recordName, pointerName))
      == (Appended(disk, r), Done(Published(r)))
    ensures forall now :: !Accepted(At(c, now), Appended(disk, r))
  {
    PublishesIff(c, req, disk, loadNow, stampNow, recordName, pointerName, r);
    LastIsRead(c, loadNow, disk, chain);
    assert Accepted(At(c, loadNow), disk);
    assert Predecessor(c, disk, loadNow) == LastLink(c, chain);
    NewRecordSucceeds(c, req, stampNow, chain, r);
    forall now
      ensures !Accepted(At(c, now), Appended(disk, r))
    {
      PublishedIsAcceptedIff(c, req, disk, chain, r, now);
    }
  }
}
