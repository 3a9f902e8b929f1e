/** Two publications that overlap: both report success, and the directory is lost. */
module ActivationRace {
  import opened Options
  import opened ActivationRecords
  import opened ActivationChain
  import opened ActivationPublish
  import opened ActivationRuns
  import opened ActivationCrash
  import opened ActivationOutcome
  import opened ActivationForks
  import opened ActivationReach

  /** These inputs, all for one publisher. */
  function By(who: nat, inputs: seq<Input>): seq<Event> {
    seq(|inputs|, k requires 0 <= k < |inputs| => Event.Event(who, inputs[k]))
  }

  /** While nobody else is scheduled, a publisher runs as it would alone. */
  lemma {:induction false} RunAlone(c: Codec, s: System, who: nat, inputs: seq<Input>)
    requires who < |s.publishers|
    ensures var (disk, place) := Solo(c, s.publishers[who].request, s.disk, s.publishers[who].place, inputs);
      Run(c, s, By(who, inputs)) == After(s, who, disk, place)
    decreases |inputs|
  {
    var p := s.publishers[who];
    if inputs == [] {
      assert s.publishers[who := p.(place := p.place)] == s.publishers;
    } else {
      var events := By(who, inputs);
      assert events[1..] == By(who, inputs[1..]) && events[0] == Event.Event(who, inputs[0]);
      var next := Advance(c, s, events[0]);
      RunAlone(c, next, who, inputs[1..]);
      var (disk, place) := Solo(c, p.request, next.disk, next.publishers[who].place, inputs[1..]);
      assert After(next, who, disk, place).publishers == After(s, who, disk, place).publishers;
    }
  }

  /** From the directory on: record, then pointer, on a disk that may have moved on. */
  lemma WritingRun(c: Codec, req: Request, disk: Disk, previous: Link, now: int, recordName: string, pointerName: string, r: Record)
    requires IsRequest(req) && FreshNames(disk, req, recordName, pointerName)
    requires NewRecord(c, req, now, Some(previous)) == Some(r) && FileName(r.id) !in Files(disk)
    ensures Solo(c, req, disk, NeedDirectory(Some(previous)), Recording(now, recordName) + Pointing(now, pointerName))
      == (Appended(disk, r), Done(Published(r)))
  {
    RecordingRun(c, req, disk, Some(previous), now, recordName);
    var recorded := WithFiles(disk, Files(disk)[FileName(r.id) := r.payload]);
    PointingRun(c, req, recorded, r, now, pointerName);
    SoloConcat(c, req, disk, NeedDirectory(Some(previous)), Recording(now, recordName), Pointing(now, pointerName));
  }

  /** What one publisher needs for its half: when it stamps, and the names of its temporaries. */
  datatype Half = Half(request: Request, stampNow: int, recordName: string, pointerName: string)

  function Writing(h: Half): seq<Input> {
    Recording(h.stampNow, h.recordName) + Pointing(h.stampNow, h.pointerName)
  }

  /** Both load, then one writes, then the other. */
  function Overlap(loadNow: int, a: Half, b: Half): seq<Event> {
    By(0, Reading(true, loadNow)) + (By(1, Reading(true, loadNow)) + (By(0, Writing(a)) + By(1, Writing(b))))
  }

  function Both(disk: Disk, a: Half, inA: Place, b: Half, inB: Place): System {
    System(disk, [Publisher(a.request, inA), Publisher(b.request, inB)])
  }

  ghost predicate WouldPublish(c: Codec, disk: Disk, loadNow: int, h: Half, r: Record) {
    && IsRequest(h.request) && disk.current.Some? && FreshNames(disk, h.request, h.recordName, h.pointerName)
    && NextRecord(c, h.request, disk, loadNow, h.stampNow) == Some(r)
  }

  lemma PredecessorIsNamed(c: Codec, disk: Disk, loadNow: int, h: Half, r: Record) returns (previous: Link)
    requires WouldPublish(c, disk, loadNow, h, r)
    ensures Predecessor(c, disk, loadNow) == Some(previous)
    ensures AfterReading(c, h.request, disk, loadNow) == NeedDirectory(Some(previous))
    ensures NewRecord(c, h.request, h.stampNow, Some(previous)) == Some(r)
    ensures r.previous == Some(previous) && r.id == h.request.activationId && Readable(c, r) && FileName(r.id) !in Files(disk)
  {
    previous := Predecessor(c, disk, loadNow).value;
    NewRecordFields(c, h.request, h.stampNow, Some(previous), r);
  }

  lemma LoadFirst(c: Codec, disk: Disk, loadNow: int, a: Half, b: Half, placeA: Place)
    requires disk.current.Some? && AfterReading(c, a.request, disk, loadNow) == placeA
    ensures Run(c, Both(disk, a, Start, b, Start), By(0, Reading(true, loadNow))) == Both(disk, a, placeA, b, Start)
  {
    ReadingRun(c, a.request, disk, loadNow);
    RunAlone(c, Both(disk, a, Start, b, Start), 0, Reading(true, loadNow));
  }

  lemma LoadSecond(c: Codec, disk: Disk, loadNow: int, a: Half, placeA: Place, b: Half, placeB: Place)
    requires disk.current.Some? && AfterReading(c, b.request, disk, loadNow) == placeB
    ensures Run(c, Both(disk, a, placeA, b, Start), By(1, Reading(true, loadNow))) == Both(disk, a, placeA, b, placeB)
  {
    ReadingRun(c, b.request, disk, loadNow);
    RunAlone(c, Both(disk, a, placeA, b, Start), 1, Reading(true, loadNow));
  }

  /** The second publisher's names are still free, and its record's. */
  lemma StillFree(disk: Disk, r: Record, h: Half, id: string)
    requires FreshNames(disk, h.request, h.recordName, h.pointerName) && FileName(id) !in Files(disk) && id != r.id
    ensures FreshNames(Appended(disk, r), h.request, h.recordName, h.pointerName) && FileName(id) !in Files(Appended(disk, r))
  {
    TemporaryIsNoRecord(h.recordName, FileName(h.request.activationId));
    FileNameIsInjective(r.id, id);
  }

  lemma WriteFirst(c: Codec, disk: Disk, a: Half, b: Half, ra: Record, previous: Link)
    requires IsRequest(a.request) && FreshNames(disk, a.request, a.recordName, a.pointerName)
    requires NewRecord(c, a.request, a.stampNow, Some(previous)) == Some(ra) && FileName(ra.id) !in Files(disk)
    ensures var need := NeedDirectory(Some(previous));
      Run(c, Both(disk, a, need, b, need), By(0, Writing(a))) == Both(Appended(disk, ra), a, Done(Published(ra)), b, need)
  {
    WritingRun(c, a.request, disk, previous, a.stampNow, a.recordName, a.pointerName, ra);
    RunAlone(c, Both(disk, a, NeedDirectory(Some(previous)), b, NeedDirectory(Some(previous))), 0, Writing(a));
  }

  lemma WriteSecond(c: Codec, disk: Disk, a: Half, b: Half, placeA: Place, rb: Record, previous: Link)
    requires IsRequest(b.request) && FreshNames(disk, b.request, b.recordName, b.pointerName)
    requires NewRecord(c, b.request, b.stampNow, Some(previous)) == Some(rb) && FileName(rb.id) !in Files(disk)
    ensures Run(c, Both(disk, a, placeA, b, NeedDirectory(Some(previous))), By(1, Writing(b)))
      == Both(Appended(disk, rb), a, placeA, b, Done(Published(rb)))
  {
    WritingRun(c, b.request, disk, previous, b.stampNow, b.recordName, b.pointerName, rb);
    RunAlone(c, Both(disk, a, placeA, b, NeedDirectory(Some(previous))), 1, Writing(b));
  }

  lemma RunFour(c: Codec, s: System, a: seq<Event>, b: seq<Event>, d: seq<Event>, e: seq<Event>)
    ensures Run(c, s, a + (b + (d + e))) == Run(c, Run(c, Run(c, Run(c, s, a), b), d), e)
  {
    RunConcat(c, s, a, b + (d + e));
    RunConcat(c, Run(c, s, a), b, d + e);
    RunConcat(c, Run(c, Run(c, s, a), b), d, e);
  }

  /** Both load before either writes, and both get through. */
  lemma OverlapPublishesBoth(c: Codec, disk: Disk, loadNow: int, a: Half, b: Half, ra: Record, rb: Record)
    requires WouldPublish(c, disk, loadNow, a, ra) && WouldPublish(c, disk, loadNow, b, rb) && ra.id != rb.id
    ensures Run(c, Both(disk, a, Start, b, Start), Overlap(loadNow, a, b))
      == Both(Appended(Appended(disk, ra), rb), a, Done(Published(ra)), b, Done(Published(rb)))
    ensures Forked(c, Appended(Appended(disk, ra), rb))
  {
    var previous := PredecessorIsNamed(c, disk, loadNow, a, ra);
    var q := PredecessorIsNamed(c, disk, loadNow, b, rb);
    var reading := Reading(true, loadNow);
    RunFour(c, Both(disk, a, Start, b, Start), By(0, reading), By(1, reading), By(0, Writing(a)), By(1, Writing(b)));
    var need := NeedDirectory(Some(previous));
    LoadFirst(c, disk, loadNow, a, b, need);
    LoadSecond(c, disk, loadNow, a, need, b, need);
    WriteFirst(c, disk, a, b, ra, previous);
    StillFree(disk, ra, b, rb.id);
    WriteSecond(c, Appended(disk, ra), a, b, Done(Published(ra)), rb, previous);
    TwoSuccessorsFork(c, disk, ra, rb);
  }

  lemma TwoSuccessorsFork(c: Codec, disk: Disk, ra: Record, rb: Record)
    requires Readable(c, ra) && Readable(c, rb) && ra.id != rb.id && ra.previous == rb.previous
    ensures Forked(c, Appended(Appended(disk, ra), rb))
  {
    FileNameIsInjective(ra.id, rb.id);
    assert ForksAt(c, Appended(Appended(disk, ra), rb), ra, rb);
  }

  lemma ForkedBothIsFatal(c: Codec, disk: Disk, a: Half, b: Half, ra: Record, rb: Record)
    requires Forked(c, disk)
    ensures forall more, now :: !Accepted(At(c, now), Run(c, Both(disk, a, Done(Published(ra)), b, Done(Published(rb))), more).disk)
  {
    var end := Both(disk, a, Done(Published(ra)), b, Done(Published(rb)));
    forall more, now
      ensures !Accepted(At(c, now), Run(c, end, more).disk)
    {
      ForkIsFatal(c, end, more, now);
    }
  }

  /** Whenever two publishers would each add a record under an id of its own, the schedule in which both load
      before either writes lets both report success, and leaves a directory that is never accepted again. */
  lemma OverlapIsFatal(c: Codec, disk: Disk, loadNow: int, a: Half, b: Half, ra: Record, rb: Record)
    requires WouldPublish(c, disk, loadNow, a, ra) && WouldPublish(c, disk, loadNow, b, rb) && ra.id != rb.id
    ensures var end := Both(Appended(Appended(disk, ra), rb), a, Done(Published(ra)), b, Done(Published(rb)));
      && Run(c, Both(disk, a, Start, b, Start), Overlap(loadNow, a, b)) == end
      && forall more, now :: !Accepted(At(c, now), Run(c, end, more).disk)
  {
    OverlapPublishesBoth(c, disk, loadNow, a, b, ra, rb);
    ForkedBothIsFatal(c, Appended(Appended(disk, ra), rb), a, b, ra, rb);
  }
}
