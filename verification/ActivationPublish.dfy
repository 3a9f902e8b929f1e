/** Publication: one filesystem call at a time, so that a crash or another publisher can come
    between any two of them. */
module ActivationPublish {
  import opened Options
  import opened ActivationRecords
  import opened ActivationChain

  datatype Request = Request(identity: map<Field, string>, activationId: string, evidence: Json, supersede: bool)

  /** expected_identity always carries the same seven fields. */
  predicate IsRequest(req: Request) {
    req.identity.Keys == IDENTITY_FIELDS
  }

  predicate IdentityMatches(d: Document, identity: map<Field, string>) {
    forall key | key in identity :: Get(d, key) == Text(identity[key])
  }

  datatype Decision = Keep | Reject | Append(previous: Option<Link>)

  /** What publish does about the accepted current record, if there is one. */
  function Decide(c: Codec, req: Request, current: Option<Record>): Decision {
    match current
    case None => Append(None)
    case Some(r) =>
      var schema := Get(r.document, SchemaVersion);
      var isCurrentSchema := !IsVersion(schema, LEGACY_SCHEMA) && !IsVersion(schema, PREVIOUS_SCHEMA);
      if isCurrentSchema && IdentityMatches(r.document, req.identity) then Keep
      else if !req.supersede then Reject
      else Append(Some(Link(r.id, c.sha256(r.payload))))
  }

  function LinkJson(previous: Option<Link>): Json {
    match previous
    case None => Null
    case Some(link) => Object(map[ActivationId := Text(link.id), Sha256 := Text(link.sha256)])
  }

  function NewDocument(c: Codec, req: Request, now: int, previous: Option<Link>): Document {
    map[
      SchemaVersion := Numeric(CURRENT_SCHEMA, "3"),
      Event := Text(EVENT),
      ActivationId := Text(req.activationId),
      ActivatedAt := Text(c.stamp(now))
    ]
    + (map key | key in req.identity :: Text(req.identity[key]))
    + map[PreviousActivation := LinkJson(previous), RecoveryEvidence := req.evidence]
  }

  /** The new record, if it survives its own validation. Validation must read back the document
      that was encoded; JSON guarantees that. */
  function NewRecord(c: Codec, req: Request, now: int, previous: Option<Link>): Option<Record> {
    var document := NewDocument(c, req, now, previous);
    var r := Read(c, now, c.encode(document));
    if IsSafeId(req.activationId) && r.Some? && r.value.document == document then r else None
  }

  /** The live identity, field by field. */
  lemma IdentityMeans(d: Document, req: Request)
    requires IsRequest(req)
    ensures IdentityMatches(d, req.identity) <==>
      && Get(d, StackName) == Text(req.identity[StackName])
      && Get(d, ContainerName) == Text(req.identity[ContainerName])
      && Get(d, ImageRef) == Text(req.identity[ImageRef])
      && Get(d, SystemIdentifier) == Text(req.identity[SystemIdentifier])
      && Get(d, StoragePrefix) == Text(req.identity[StoragePrefix])
      && Get(d, DataVolume) == Text(req.identity[DataVolume])
      && Get(d, WalArchiveVolume) == Text(req.identity[WalArchiveVolume])
  {
  }

  lemma NewDocumentIdentity(c: Codec, req: Request, now: int, previous: Option<Link>)
    requires IsRequest(req)
    ensures IdentityMatches(NewDocument(c, req, now, previous), req.identity)
  {
  }

  /** It has exactly the fields of the current schema. */
  lemma NewDocumentKeys(c: Codec, req: Request, now: int, previous: Option<Link>)
    requires IsRequest(req)
    ensures NewDocument(c, req, now, previous).Keys == ExpectedFields(Numeric(CURRENT_SCHEMA, "3"))
  {
    var header := {SchemaVersion, Field.Event, ActivationId, ActivatedAt};
    assert NewDocument(c, req, now, previous).Keys == header + IDENTITY_FIELDS + RECOVERY_FIELDS;
  }

  lemma NewDocumentEvent(c: Codec, req: Request, now: int, previous: Option<Link>)
    requires IsRequest(req)
    ensures Get(NewDocument(c, req, now, previous), Field.Event) == Text(EVENT)
  {
    assert Field.Event !in req.identity;
  }

  lemma NewDocumentHeader(c: Codec, req: Request, now: int, previous: Option<Link>)
    requires IsRequest(req)
    ensures var d := NewDocument(c, req, now, previous);
      && Get(d, SchemaVersion) == Numeric(CURRENT_SCHEMA, "3")
      && Get(d, ActivationId) == Text(req.activationId)
      && Get(d, ActivatedAt) == Text(c.stamp(now))
  {
    assert SchemaVersion !in req.identity && ActivationId !in req.identity && ActivatedAt !in req.identity;
  }

  lemma NewDocumentFields(c: Codec, req: Request, now: int, previous: Option<Link>)
    requires IsRequest(req)
    ensures var d := NewDocument(c, req, now, previous);
      && Get(d, SchemaVersion) == Numeric(CURRENT_SCHEMA, "3")
      && Get(d, ActivationId) == Text(req.activationId)
      && Get(d, ActivatedAt) == Text(c.stamp(now))
      && Get(d, PreviousActivation) == LinkJson(previous)
      && Get(d, RecoveryEvidence) == req.evidence
      && IdentityMatches(d, req.identity)
  {
    NewDocumentHeader(c, req, now, previous);
    NewDocumentIdentity(c, req, now, previous);
  }

  lemma LinkJsonReads(link: Link)
    requires IsLink(LinkJson(Some(link)))
    ensures LinkJson(Some(link)).fields[ActivationId].text == link.id
    ensures LinkJson(Some(link)).fields[Sha256].text == link.sha256
  {
  }

  lemma NewRecordFields(c: Codec, req: Request, now: int, previous: Option<Link>, record: Record)
    requires IsRequest(req) && NewRecord(c, req, now, previous) == Some(record)
    ensures record.document == NewDocument(c, req, now, previous)
    ensures record.id == req.activationId && record.at == c.stamp(now) && record.previous == previous
    ensures Get(record.document, RecoveryEvidence) == req.evidence && IdentityMatches(record.document, req.identity)
    ensures Read(c, now, record.payload) == Some(record)
  {
    var d := NewDocument(c, req, now, previous);
    NewDocumentFields(c, req, now, previous);
    ReadFields(c, now, c.encode(d), record);
    if previous.Some? {
      LinkJsonReads(previous.value);
    }
  }

  lemma NewRecordId(c: Codec, req: Request, now: int, previous: Option<Link>, record: Record)
    requires IsRequest(req) && NewRecord(c, req, now, previous) == Some(record)
    ensures record.id == req.activationId
  {
    NewRecordFields(c, req, now, previous, record);
  }

  /** Where a publisher is; it holds what the calls so far returned. */
  datatype Place =
    | Start
    | Exists
    | Loading(payload: Bytes)
    | NeedDirectory(previous: Option<Link>)
    | Listing(previous: Option<Link>)
    | Prepared(record: Record)
    | Staged(record: Record, temporary: string)
    | Written(record: Record, temporary: string)
    | Collided(temporary: string)
    | LinkedRecord(record: Record, temporary: string)
    | Recorded(record: Record)
    | PointerStaged(record: Record, temporary: string)
    | PointerWritten(record: Record, temporary: string)
    | Done(outcome: Outcome)

  datatype Outcome = Refused | AlreadyCurrent(record: Record) | Published(record: Record)

  /** The clock reading and the temporary name the outside world supplies to one step. */
  datatype Input = Input(now: int, name: string)

  const CURRENT_NAME := "postgres-backup-activation.json"

  function Files(disk: Disk): map<string, Bytes> {
    if disk.records.Some? then disk.records.value else map[]
  }

  function WithFiles(disk: Disk, files: map<string, Bytes>): Disk {
    disk.(records := Some(files))
  }

  /** One filesystem call of publish together with the computation up to the next one. */
  ghost function Step(c: Codec, req: Request, disk: Disk, place: Place, input: Input): (Disk, Place) {
    match place
    case Start =>
      (disk, if disk.current.Some? then Exists else NeedDirectory(None))
    case Exists =>
      (disk, if disk.current.Some? then Loading(disk.current.value) else Done(Refused))
    case Loading(payload) =>
      (disk, AfterLoading(c, req, disk.(current := Some(payload)), payload, input.now))
    case NeedDirectory(previous) =>
      (WithFiles(disk, Files(disk)), Listing(previous))
    case Listing(previous) =>
      (disk, AfterListing(c, req, Files(disk), previous, input.now))
    case Prepared(record) =>
      if IsTemporaryFor(input.name, FileName(record.id)) && input.name !in Files(disk)
      then (WithFiles(disk, Files(disk)[input.name := []]), Staged(record, input.name))
      else (disk, place)  // mkstemp tries another name
    case Staged(record, temporary) =>
      (WithFiles(disk, Files(disk)[temporary := record.payload]), Written(record, temporary))
    case Written(record, temporary) =>
      if temporary !in Files(disk) || FileName(record.id) in Files(disk) then (disk, Collided(temporary))
      else (WithFiles(disk, Files(disk)[FileName(record.id) := Files(disk)[temporary]]), LinkedRecord(record, temporary))
    case Collided(temporary) =>
      (WithFiles(disk, Files(disk) - {temporary}), Done(Refused))
    case LinkedRecord(record, temporary) =>
      (WithFiles(disk, Files(disk) - {temporary}), Recorded(record))
    case Recorded(record) =>
      if IsTemporaryFor(input.name, CURRENT_NAME) && input.name !in disk.scratch
      then (disk.(scratch := disk.scratch[input.name := []]), PointerStaged(record, input.name))
      else (disk, place)
    case PointerStaged(record, temporary) =>
      (disk.(scratch := disk.scratch[temporary := record.payload]), PointerWritten(record, temporary))
    case PointerWritten(record, temporary) =>
      if temporary !in disk.scratch then (disk, Done(Refused))
      else (disk.(current := Some(disk.scratch[temporary]), scratch := disk.scratch - {temporary}), Done(Published(record)))
    case Done(_) => (disk, place)
  }

  ghost function AfterLoading(c: Codec, req: Request, seen: Disk, payload: Bytes, now: int): Place {
    if !Accepted(At(c, now), seen) then Done(Refused)
    else match Read(c, now, payload)
      case None => Done(Refused)
      case Some(current) =>
        match Decide(c, req, Some(current))
        case Keep => Done(AlreadyCurrent(current))
        case Reject => Done(Refused)
        case Append(previous) => NeedDirectory(previous)
  }

  function AfterListing(c: Codec, req: Request, files: map<string, Bytes>, previous: Option<Link>, now: int): Place {
    if previous == None && files != map[] then Done(Refused)
    else match NewRecord(c, req, now, previous)
      case None => Done(Refused)
      case Some(record) => Prepared(record)
  }

  /** `chain` is what the disk held before publication: a history, or nothing at all. */
  ghost predicate Settled(c: Codec, disk: Disk, chain: seq<Record>) {
    if chain == [] then disk.current == None && Files(disk) == map[]
    else exists now :: IsHistory(At(c, now), disk, chain)
  }

  function LastLink(c: Codec, chain: seq<Record>): Option<Link> {
    if chain == [] then None
    else var last := chain[|chain| - 1]; Some(Link(last.id, c.sha256(last.payload)))
  }

  /** A new v3 record for this request, with its evidence, that names the end of `chain`. */
  ghost predicate IsSuccessor(c: Codec, req: Request, chain: seq<Record>, record: Record) {
    && record.id == req.activationId
    && record.previous == LastLink(c, chain)
    && IsVersion(Get(record.document, SchemaVersion), CURRENT_SCHEMA)
    && IdentityMatches(record.document, req.identity)
    && Get(record.document, RecoveryEvidence) == req.evidence
    && exists now :: Read(c, now, record.payload) == Some(record) && record.at == c.stamp(now)
  }

  function Appended(disk: Disk, record: Record): Disk {
    WithFiles(disk, Files(disk)[FileName(record.id) := record.payload]).(current := Some(record.payload))
  }

  /** What one undisturbed publication may leave behind, for each way it can end. */
  ghost predicate PublishResult(c: Codec, req: Request, before: Disk, after: Disk, outcome: Outcome) {
    match outcome
    case Refused => after == before || after == WithFiles(before, Files(before))
    case AlreadyCurrent(record) =>
      && after == before
      && before.current == Some(record.payload)
      && (exists now :: Accepted(At(c, now), before) && Read(c, now, record.payload) == Some(record))
      && IdentityMatches(record.document, req.identity)
    case Published(record) =>
      && after == Appended(before, record)
      && FileName(record.id) !in Files(before)
      && exists chain :: Settled(c, before, chain) && IsSuccessor(c, req, chain, record)
  }

  /** The current record as a load at `now` returns it; None when the load fails. */
  ghost function AcceptedCurrent(c: Codec, disk: Disk, now: int): Option<Record> {
    if disk.current.Some? && Accepted(At(c, now), disk) then Read(c, now, disk.current.value) else None
  }

  /** The accepted current record is of the current schema and carries the live identity. */
  ghost predicate MayKeep(c: Codec, req: Request, disk: Disk, now: int) {
    var r := AcceptedCurrent(c, disk, now);
    r.Some? && IsVersion(Get(r.value.document, SchemaVersion), CURRENT_SCHEMA) && IdentityMatches(r.value.document, req.identity)
  }

  /** Nothing was ever published here, or an accepted current record is to be superseded. */
  ghost predicate MayAppend(c: Codec, req: Request, disk: Disk, now: int) {
    if disk.current.None? then Files(disk) == map[]
    else AcceptedCurrent(c, disk, now).Some? && !MayKeep(c, req, disk, now) && req.supersede
  }

  ghost function Predecessor(c: Codec, disk: Disk, now: int): Option<Link> {
    match AcceptedCurrent(c, disk, now)
    case None => None
    case Some(r) => Some(Link(r.id, c.sha256(r.payload)))
  }

  /** The record an undisturbed publication adds, if it adds one. */
  ghost function NextRecord(c: Codec, req: Request, disk: Disk, loadNow: int, stampNow: int): Option<Record> {
    if !MayAppend(c, req, disk, loadNow) then None
    else
      var r := NewRecord(c, req, stampNow, Predecessor(c, disk, loadNow));
      if r.Some? && FileName(r.value.id) !in Files(disk) then r else None
  }

  /** The one way in which an undisturbed publication ends, and the disk it leaves. */
  ghost predicate Ends(c: Codec, req: Request, before: Disk, loadNow: int, stampNow: int, after: Disk, outcome: Outcome) {
    var next := NextRecord(c, req, before, loadNow, stampNow);
    if MayKeep(c, req, before, loadNow) then outcome == AlreadyCurrent(AcceptedCurrent(c, before, loadNow).value) && after == before
    else if next.Some? then outcome == Published(next.value) && after == Appended(before, next.value)
    else outcome == Refused && after == if before.current.None? then WithFiles(before, Files(before)) else before
  }

  lemma AcceptedReads(c: Codec, disk: Disk, now: int)
    requires Accepted(At(c, now), disk)
    ensures disk.current.Some? && disk.records.Some? && AcceptedCurrent(c, disk, now).Some?
    ensures WellFormed(c, AcceptedCurrent(c, disk, now).value.document)
  {
    var chain: seq<Record> :| IsHistory(At(c, now), disk, chain);
    assert Valid(At(c, now), chain[|chain| - 1]);
    ReadFields(c, now, disk.current.value, chain[|chain| - 1]);
  }

  /** The three branches on the schema amount to one test. */
  lemma DecideMeans(c: Codec, req: Request, r: Record)
    requires WellFormed(c, r.document)
    ensures var keep := IsVersion(Get(r.document, SchemaVersion), CURRENT_SCHEMA) && IdentityMatches(r.document, req.identity);
      Decide(c, req, Some(r)) ==
        if keep then Keep else if req.supersede then Append(Some(Link(r.id, c.sha256(r.payload)))) else Reject
  {
  }

  /** The state directory as one publisher uses it. */
  class StateDirectory {
    var current: Option<Bytes>
    var scratch: map<string, Bytes>
    var records: Option<map<string, Bytes>>

    function View(): Disk
      reads this
    {
      Disk(current, scratch, records)
    }

    /** The first half of publish: load the history and decide. It goes on from an accepted directory whose
        current record is to be superseded, or from one without a current file. */
    method Consult(c: Codec, req: Request, now: int) returns (decision: Decision, loaded: Option<Record>)
      ensures decision.Append? <==> current == None || MayAppend(c, req, View(), now)
      ensures decision.Append? ==> decision.previous == Predecessor(c, View(), now)
      ensures decision.Keep? <==> MayKeep(c, req, View(), now)
      ensures decision.Keep? ==> loaded == AcceptedCurrent(c, View(), now)
    {
      loaded := None;
      if current.Some? {
        var r;
        ghost var chain;
        r, chain := LoadChain(At(c, now), View());
        if r.Err? {
          return Reject, None;
        }
        loaded := Some(r.value);
        AcceptedReads(c, View(), now);
        DecideMeans(c, req, r.value);
      }
      decision := Decide(c, req, loaded);
    }

    /** Stage, link exclusively, unlink: the record appears whole or not at all. */
    method LinkRecord(record: Record, name: string) returns (linked: bool)
      requires records.Some? && name !in records.value && name != FileName(record.id)
      modifies `records
      ensures linked <==> FileName(record.id) !in old(records.value)
      ensures records == Some(if linked then old(records.value)[FileName(record.id) := record.payload] else old(records.value))
    {
      ghost var files := records.value;
      records := Some(records.value[name := []]);
      records := Some(records.value[name := record.payload]);
      linked := FileName(record.id) !in records.value;
      if linked {
        records := Some(records.value[FileName(record.id) := records.value[name]]);
      }
      records := Some(records.value - {name});
      assert records.value == if linked then files[FileName(record.id) := record.payload] else files;
    }

    /** atomic_write of the current pointer. */
    method ReplaceCurrent(payload: Bytes, name: string)
      requires name !in scratch
      modifies `scratch, `current
      ensures current == Some(payload) && scratch == old(scratch)
    {
      scratch := scratch[name := []];
      scratch := scratch[name := payload];
      current := Some(scratch[name]);
      scratch := scratch - {name};
    }

    /** publish without interference: `loadNow` and `stampNow` are its clock readings, the two names
        are what mkstemp picked. */
    method Publish(c: Codec, req: Request, loadNow: int, stampNow: int, recordName: string, pointerName: string)
      returns (outcome: Outcome)
      requires IsRequest(req)
      requires IsTemporaryFor(recordName, FileName(req.activationId)) && recordName !in Files(View())
      requires IsTemporaryFor(pointerName, CURRENT_NAME) && pointerName !in scratch
      modifies this
      ensures Ends(c, req, old(View()), loadNow, stampNow, View(), outcome)
      ensures PublishResult(c, req, old(View()), View(), outcome)
    {
      outcome := Complete(c, req, loadNow, stampNow, recordName, pointerName);
      EndsAsPromised(c, req, old(View()), loadNow, stampNow, View(), outcome);
    }

    method Complete(c: Codec, req: Request, loadNow: int, stampNow: int, recordName: string, pointerName: string)
      returns (outcome: Outcome)
      requires IsRequest(req)
      requires IsTemporaryFor(recordName, FileName(req.activationId)) && recordName !in Files(View())
      requires pointerName !in scratch
      modifies this
      ensures Ends(c, req, old(View()), loadNow, stampNow, View(), outcome)
    {
      var decision, loaded := Consult(c, req, loadNow);
      if decision.Keep? {
        return AlreadyCurrent(loaded.value);
      }
      if decision.Reject? {
        return Refused;
      }
      if records == None {
        records := Some(map[]);
      }
      if decision.previous == None && records.value != map[] {
        return Refused;
      }
      var record := NewRecord(c, req, stampNow, decision.previous);
      if record == None {
        return Refused;
      }
      NewRecordId(c, req, stampNow, decision.previous, record.value);
      var linked := LinkRecord(record.value, recordName);
      if !linked {
        return Refused;
      }
      ReplaceCurrent(record.value.payload, pointerName);
      return Published(record.value);
    }
  }

  /** However it ends, it leaves the disk as it was, with the directory made, or with one successor of the
      history it started from. */
  lemma EndsAsPromised(c: Codec, req: Request, before: Disk, loadNow: int, stampNow: int, after: Disk, outcome: Outcome)
    requires IsRequest(req) && Ends(c, req, before, loadNow, stampNow, after, outcome)
    ensures PublishResult(c, req, before, after, outcome)
  {
    if before.current.Some? && Accepted(At(c, loadNow), before) {
      var chain: seq<Record> :| IsHistory(At(c, loadNow), before, chain);
      assert Valid(At(c, loadNow), chain[|chain| - 1]);
      if outcome.Published? {
        NewRecordSucceeds(c, req, stampNow, chain, outcome.record);
      }
    } else if outcome.Published? {
      assert Settled(c, before, []);
      NewRecordSucceeds(c, req, stampNow, [], outcome.record);
    }
  }

  lemma KeptIsCurrent(c: Codec, req: Request, now: int, disk: Disk, chain: seq<Record>)
    requires IsHistory(At(c, now), disk, chain) && Decide(c, req, Some(chain[|chain| - 1])).Keep?
    ensures PublishResult(c, req, disk, disk, AlreadyCurrent(chain[|chain| - 1]))
  {
    assert Valid(At(c, now), chain[|chain| - 1]);
    assert Accepted(At(c, now), disk);
  }

  lemma NewRecordSucceeds(c: Codec, req: Request, now: int, chain: seq<Record>, record: Record)
    requires IsRequest(req) && NewRecord(c, req, now, LastLink(c, chain)) == Some(record)
    ensures IsSuccessor(c, req, chain, record)
  {
    NewRecordFields(c, req, now, LastLink(c, chain), record);
    NewDocumentFields(c, req, now, LastLink(c, chain));
  }
}
