/** The format of a record and of an accepted directory, spelled out version by version and file by file. */
module ActivationFormat {
  import opened Options
  import opened ActivationRecords
  import opened ActivationChain

  // ---- the three versions ----

  /** Letters, digits, dots, underscores and hyphens, a letter or digit first, at most 128 of them. */
  predicate IsIdentifier(s: string) {
    && 1 <= |s| <= 128 && s[0] != '.' && s[0] != '_' && s[0] != '-'
    && forall i | 0 <= i < |s| ::
         'a' <= s[i] <= 'z' || 'A' <= s[i] <= 'Z' || '0' <= s[i] <= '9' || s[i] == '.' || s[i] == '_' || s[i] == '-'
  }

  /** Sixty-four lower-case hexadecimal digits. */
  predicate IsDigest(s: string) {
    |s| == 64 && forall i | 0 <= i < 64 :: s[i] in "0123456789abcdef"
  }

  const KEYS_1: set<Field> := {
    SchemaVersion, Event, ActivationId, ActivatedAt,
    StackName, ContainerName, ImageRef, SystemIdentifier, DataVolume, WalArchiveVolume
  }
  const KEYS_2: set<Field> := {
    SchemaVersion, Event, ActivationId, ActivatedAt,
    StackName, ContainerName, ImageRef, SystemIdentifier, DataVolume, WalArchiveVolume,
    PreviousActivation, RecoveryEvidence
  }
  const KEYS_3: set<Field> := {
    SchemaVersion, Event, ActivationId, ActivatedAt,
    StackName, ContainerName, ImageRef, SystemIdentifier, DataVolume, WalArchiveVolume, StoragePrefix,
    PreviousActivation, RecoveryEvidence
  }

  predicate HasHeader(d: Document, version: int, id: string, at: string) {
    && {SchemaVersion, Event, ActivationId, ActivatedAt} <= d.Keys
    && d[SchemaVersion].Numeric? && d[SchemaVersion].value == version
    && d[Event] == Text("existing_postgres_backup_control_activated")
    && d[ActivationId] == Text(id) && IsIdentifier(id)
    && d[ActivatedAt] == Text(at)
  }

  /** null, or an object of exactly two texts. */
  predicate Names(j: Json, previous: Option<Link>) {
    match previous
    case None => j == Null
    case Some(link) =>
      && j == Object(map[ActivationId := Text(link.id), Sha256 := Text(link.sha256)])
      && IsIdentifier(link.id) && IsDigest(link.sha256)
  }

  predicate IsVersion1(d: Document, id: string, at: string) {
    d.Keys == KEYS_1 && HasHeader(d, 1, id, at)
  }

  predicate IsVersion2(d: Document, id: string, at: string, previous: Option<Link>) {
    d.Keys == KEYS_2 && HasHeader(d, 2, id, at) && Names(d[PreviousActivation], previous)
  }

  predicate IsVersion3(d: Document, id: string, at: string, previous: Option<Link>) {
    d.Keys == KEYS_3 && HasHeader(d, 3, id, at) && Names(d[PreviousActivation], previous)
  }

  /** Only versions 2 and 3 name a predecessor. */
  predicate Describes(d: Document, id: string, at: string, previous: Option<Link>) {
    || (IsVersion1(d, id, at) && previous == None)
    || IsVersion2(d, id, at, previous)
    || IsVersion3(d, id, at, previous)
  }

  lemma IdentifierIsSafeId(s: string)
    ensures IsSafeId(s) <==> IsIdentifier(s)
  {
  }

  lemma DigestIsHex(s: string)
    ensures IsSha256Hex(s) <==> IsDigest(s)
  {
    forall c: char
      ensures ('0' <= c <= '9' || 'a' <= c <= 'f') <==> c in "0123456789abcdef"
    {
      CharIsHex(c);
    }
  }

  lemma CharIsHex(c: char)
    ensures ('0' <= c <= '9' || 'a' <= c <= 'f') <==> c in "0123456789abcdef"
  {
    var digits := "0123456789abcdef";
    if '0' <= c <= '9' {
      assert digits[c as int - '0' as int] == c;
    } else if 'a' <= c <= 'f' {
      assert digits[c as int - 'a' as int + 10] == c;
    }
  }
  /** What an accepted link says. */
  lemma LinkIsNamed(j: Json)
    ensures IsLink(j) ==> Names(j, Some(Link(j.fields[ActivationId].text, j.fields[Sha256].text)))
  {
    if IsLink(j) {
      IdentifierIsSafeId(j.fields[ActivationId].text);
      DigestIsHex(j.fields[Sha256].text);
      assert j.fields == map[ActivationId := j.fields[ActivationId], Sha256 := j.fields[Sha256]];
    }
  }

  lemma NamedIsLink(j: Json, previous: Option<Link>)
    requires Names(j, previous)
    ensures previous.None? ==> j == Null && !IsLink(j)
    ensures previous.Some? ==>
      IsLink(j) && j.fields[ActivationId] == Text(previous.value.id) && j.fields[Sha256] == Text(previous.value.sha256)
  {
    if previous.Some? {
      IdentifierIsSafeId(previous.value.id);
      DigestIsHex(previous.value.sha256);
    }
  }

  /** The fields of the three versions. */
  lemma ExpectedFieldsAre(schema: Json)
    requires schema.Numeric?
    ensures schema.value == 1 ==> ExpectedFields(schema) == KEYS_1
    ensures schema.value == 2 ==> ExpectedFields(schema) == KEYS_2
    ensures schema.value == 3 ==> ExpectedFields(schema) == KEYS_3
  {
  }

  /** A record's predecessor is what its document says: nothing in version 1, and in versions 2 and 3 the null or
      the link that stands under its key. */
  lemma PredecessorIsWritten(c: Codec, now: int, payload: Bytes, r: Record)
    requires Read(c, now, payload) == Some(r)
    ensures Get(r.document, SchemaVersion).Numeric? && Get(r.document, SchemaVersion).value in {1, 2, 3}
    ensures Get(r.document, SchemaVersion).value == 1 ==> r.previous == None
    ensures Get(r.document, SchemaVersion).value != 1 ==> Names(Get(r.document, PreviousActivation), r.previous)
  {
    LinkIsNamed(Get(r.document, PreviousActivation));
  }

  lemma ReadDescribes(c: Codec, now: int, payload: Bytes, r: Record)
    requires Read(c, now, payload) == Some(r)
    ensures Describes(r.document, r.id, r.at, r.previous)
  {
    PredecessorIsWritten(c, now, payload, r);
    ExpectedFieldsAre(Get(r.document, SchemaVersion));
    IdentifierIsSafeId(r.id);
  }

  lemma DescribedIsWellFormed(c: Codec, d: Document, id: string, at: string, previous: Option<Link>)
    requires Describes(d, id, at, previous) && c.detailOk(d)
    ensures WellFormed(c, d) && d[ActivationId] == Text(id) && d[ActivatedAt] == Text(at)
    ensures PredecessorOf(d) == previous
  {
    ExpectedFieldsAre(d[SchemaVersion]);
    IdentifierIsSafeId(id);
    if !IsVersion1(d, id, at) {
      NamedIsLink(d[PreviousActivation], previous);
    }
  }

  /** A payload is a record exactly when it is the canonical form of a document of one of the three versions whose
      details and time pass; and then the record has what the document says. */
  lemma ReadIff(c: Codec, now: int, payload: Bytes, r: Record)
    ensures Read(c, now, payload) == Some(r) <==>
      && c.parse(payload) == Some(Object(r.document)) && payload == c.encode(r.document) == r.payload
      && Describes(r.document, r.id, r.at, r.previous) && c.detailOk(r.document) && c.timestampOk(now, r.at)
  {
    if Read(c, now, payload) == Some(r) {
      ReadDescribes(c, now, payload, r);
    }
    if Describes(r.document, r.id, r.at, r.previous) && c.detailOk(r.document) {
      DescribedIsWellFormed(c, r.document, r.id, r.at, r.previous);
    }
  }

  // ---- an accepted directory, file by file ----

  ghost predicate FileReads(c: Codec, now: int, files: map<string, Bytes>, name: string, r: Record) {
    name in files && Read(c, now, files[name]) == Some(r) && name == r.id + ".json"
  }

  /** The file that the record names is there with the digest it gives, and is not younger. */
  ghost predicate FollowsFile(c: Codec, now: int, files: map<string, Bytes>, r: Record) {
    r.previous.Some? ==>
      exists before: Record ::
        && FileReads(c, now, files, r.previous.value.id + ".json", before)
        && c.sha256(before.payload) == r.previous.value.sha256
        && !StringLess(r.at, before.at)
  }

  lemma HistoryFile(c: Codec, now: int, disk: Disk, chain: seq<Record>, i: nat)
    requires IsHistory(At(c, now), disk, chain) && i < |chain|
    ensures FileReads(c, now, disk.records.value, chain[i].id + ".json", chain[i])
    ensures FollowsFile(c, now, disk.records.value, chain[i])
    ensures chain[i].previous == None <==> i == 0
  {
    assert Valid(At(c, now), chain[i]) && Stores(At(c, now), disk.records.value, chain[i]);
    OnlyRootHasNoPredecessor(At(c, now), chain, i);
    if i > 0 {
      assert Valid(At(c, now), chain[i - 1]) && Stores(At(c, now), disk.records.value, chain[i - 1]);
      assert StepAt(At(c, now), chain, i);
      assert FileReads(c, now, disk.records.value, chain[i].previous.value.id + ".json", chain[i - 1]);
    }
  }

  ghost predicate IsFileOf(c: Codec, now: int, files: map<string, Bytes>, name: string, root: Record, last: Record, r: Record) {
    && FileReads(c, now, files, name, r) && FollowsFile(c, now, files, r)
    && (r.previous == None <==> r == root) && (r.previous.Some? ==> r.previous.value.id != last.id)
  }

  lemma HistoryFileIs(c: Codec, now: int, disk: Disk, chain: seq<Record>, i: nat)
    requires IsHistory(At(c, now), disk, chain) && i < |chain|
    ensures IsFileOf(c, now, disk.records.value, chain[i].id + ".json", chain[0], chain[|chain| - 1], chain[i])
  {
    HistoryFile(c, now, disk, chain, i);
    NamesNotLast(At(c, now), chain, i);
    assert i > 0 ==> chain[i].id != chain[0].id;
  }

  /** Every file reads as a record stored under its own id, with the digest of the file it names in it; one file
      names none; the current file is one of them, and no file names it. */
  lemma AcceptedDirectory(c: Codec, now: int, disk: Disk) returns (root: Record, last: Record)
    requires Accepted(At(c, now), disk)
    ensures disk.records.Some? && disk.current == Some(last.payload)
    ensures var files := disk.records.value;
      && FileReads(c, now, files, last.id + ".json", last) && FileReads(c, now, files, root.id + ".json", root)
      && forall name | name in files :: exists r: Record :: IsFileOf(c, now, files, name, root, last, r)
  {
    var chain: seq<Record> :| IsHistory(At(c, now), disk, chain);
    root, last := chain[0], chain[|chain| - 1];
    HistoryFile(c, now, disk, chain, 0);
    HistoryFile(c, now, disk, chain, |chain| - 1);
    forall name | name in disk.records.value
      ensures exists r: Record :: IsFileOf(c, now, disk.records.value, name, root, last, r)
    {
      assert IsNamed(chain, name);
      var i :| 0 <= i < |chain| && name == FileName(chain[i].id);
      HistoryFileIs(c, now, disk, chain, i);
    }
  }

  lemma NamesNotLast(c: Reader, chain: seq<Record>, i: nat)
    requires Linked(c, chain) && DistinctIds(chain) && i < |chain|
    ensures chain[i].previous.Some? ==> i > 0 && chain[i].previous.value.id == chain[i - 1].id != chain[|chain| - 1].id
  {
    OnlyRootHasNoPredecessor(c, chain, i);
    if i > 0 {
      assert StepAt(c, chain, i);
    }
  }

  // ---- a directory of all three versions ----

  const DIGEST_1 := seq(64, _ => '1')
  const DIGEST_2 := seq(64, _ => '2')

  const HEADER: Document := map[
    Event := Text("existing_postgres_backup_control_activated"),
    StackName := Text(""), ContainerName := Text(""), ImageRef := Text(""), SystemIdentifier := Text(""),
    DataVolume := Text(""), WalArchiveVolume := Text("")
  ]

  const FIRST: Document := HEADER[SchemaVersion := Numeric(1, "1")][ActivationId := Text("a")][ActivatedAt := Text("2026-08-01T00:00:00Z")]

  const SECOND: Document := HEADER[SchemaVersion := Numeric(2, "2")][ActivationId := Text("b")][ActivatedAt := Text("2026-08-02T00:00:00Z")]
    [PreviousActivation := Object(map[ActivationId := Text("a"), Sha256 := Text(DIGEST_1)])][RecoveryEvidence := Null]

  const THIRD: Document := HEADER[SchemaVersion := Numeric(3, "3")][ActivationId := Text("c")][ActivatedAt := Text("2026-08-02T00:00:00Z")]
    [PreviousActivation := Object(map[ActivationId := Text("b"), Sha256 := Text(DIGEST_2)])][RecoveryEvidence := Null][StoragePrefix := Text("")]

  /** It knows the three documents, whose payloads are their version numbers, and passes every detail and time. */
  const THREE_DOCUMENTS := Codec(
    payload => if payload == [1] then Some(Object(FIRST)) else if payload == [2] then Some(Object(SECOND))
               else if payload == [3] then Some(Object(THIRD)) else None,
    document => if document == FIRST then [1] else if document == SECOND then [2] else [3],
    payload => if payload == [1] then DIGEST_1 else DIGEST_2,
    (_, _) => true,
    _ => "",
    _ => true
  )

  const R1 := Record([1], FIRST, "a", "2026-08-01T00:00:00Z", None)
  const R2 := Record([2], SECOND, "b", "2026-08-02T00:00:00Z", Some(Link("a", DIGEST_1)))
  const R3 := Record([3], THIRD, "c", "2026-08-02T00:00:00Z", Some(Link("b", DIGEST_2)))

  const THREE_FILES := Disk(Some([3]), map[], Some(map["a.json" := [1], "b.json" := [2], "c.json" := [3]]))

  lemma FirstIsDescribed()
    ensures Describes(FIRST, "a", "2026-08-01T00:00:00Z", None)
  {
    assert IsVersion1(FIRST, "a", "2026-08-01T00:00:00Z");
  }

  lemma SecondIsDescribed()
    ensures Describes(SECOND, "b", "2026-08-02T00:00:00Z", Some(Link("a", DIGEST_1)))
  {
    assert IsDigest(DIGEST_1);
    assert IsVersion2(SECOND, "b", "2026-08-02T00:00:00Z", Some(Link("a", DIGEST_1)));
  }

  lemma ThirdIsDescribed()
    ensures Describes(THIRD, "c", "2026-08-02T00:00:00Z", Some(Link("b", DIGEST_2)))
  {
    assert IsDigest(DIGEST_2);
    assert IsVersion3(THIRD, "c", "2026-08-02T00:00:00Z", Some(Link("b", DIGEST_2)));
  }

  lemma ThreeDiffer()
    ensures FIRST != SECOND && FIRST != THIRD && SECOND != THIRD
  {
    assert FIRST[SchemaVersion].value == 1 && SECOND[SchemaVersion].value == 2 && THIRD[SchemaVersion].value == 3;
  }

  lemma FirstReads(now: int)
    ensures Read(THREE_DOCUMENTS, now, [1]) == Some(R1)
  {
    FirstIsDescribed();
    ReadIff(THREE_DOCUMENTS, now, [1], R1);
  }

  lemma SecondReads(now: int)
    ensures Read(THREE_DOCUMENTS, now, [2]) == Some(R2)
  {
    ThreeDiffer();
    SecondIsDescribed();
    ReadIff(THREE_DOCUMENTS, now, [2], R2);
  }

  lemma ThirdReads(now: int)
    ensures Read(THREE_DOCUMENTS, now, [3]) == Some(R3)
  {
    ThreeDiffer();
    ThirdIsDescribed();
    ReadIff(THREE_DOCUMENTS, now, [3], R3);
  }

  lemma ThreeAreOrdered()
    ensures !StringLess(R2.at, R1.at) && !StringLess(R3.at, R2.at)
  {
    StringOrderIsTotal(R3.at, "", "");
    StringLessMeans(R2.at, R1.at);
  }

  /** Three valid records in a row under names of their own. */
  lemma ThreeInARow(c: Reader, disk: Disk, x: Record, y: Record, z: Record)
    requires Valid(c, x) && Valid(c, y) && Valid(c, z)
    requires x.previous == None && Follows(c, x, y) && Follows(c, y, z)
    requires x.id + ".json" == "a.json" && y.id + ".json" == "b.json" && z.id + ".json" == "c.json"
    requires disk.current == Some(z.payload)
    requires disk.records == Some(map["a.json" := x.payload, "b.json" := y.payload, "c.json" := z.payload])
    ensures IsHistory(c, disk, [x, y, z])
  {
    var chain := [x, y, z];
    assert chain[0] == x && chain[1] == y && chain[2] == z;
    assert "a.json"[0] != "b.json"[0] && "a.json"[0] != "c.json"[0] && "b.json"[0] != "c.json"[0];
    assert Stores(c, disk.records.value, x) && Stores(c, disk.records.value, y) && Stores(c, disk.records.value, z);
    assert IsNamed(chain, "a.json") && IsNamed(chain, "b.json") && IsNamed(chain, "c.json");
  }

  lemma SecondFollowsFirst(now: int)
    ensures Follows(At(THREE_DOCUMENTS, now), R1, R2)
  {
    ThreeAreOrdered();
    assert THREE_DOCUMENTS.sha256([1]) == DIGEST_1;
  }

  lemma ThirdFollowsSecond(now: int)
    ensures Follows(At(THREE_DOCUMENTS, now), R2, R3)
  {
    ThreeAreOrdered();
    assert THREE_DOCUMENTS.sha256([2]) == DIGEST_2;
  }

  lemma ThreeAreValid(now: int)
    ensures Valid(At(THREE_DOCUMENTS, now), R1) && Valid(At(THREE_DOCUMENTS, now), R2) && Valid(At(THREE_DOCUMENTS, now), R3)
  {
    FirstReads(now);
    SecondReads(now);
    ThirdReads(now);
  }

  lemma ThreeNames()
    ensures R1.id + ".json" == "a.json" && R2.id + ".json" == "b.json" && R3.id + ".json" == "c.json"
  {
  }

  /** A legacy record, a version 2 record that names it, and a version 3 record that names that one: the loader
      accepts them, at every clock reading. */
  lemma ThreeVersionsAreAccepted(now: int)
    ensures Accepted(At(THREE_DOCUMENTS, now), THREE_FILES)
  {
    ThreeAreValid(now);
    SecondFollowsFirst(now);
    ThirdFollowsSecond(now);
    ThreeNames();
    ThreeInARow(At(THREE_DOCUMENTS, now), THREE_FILES, R1, R2, R3);
  }
}
