/** Activation records, the directory that holds them, and what makes a payload a valid record.
    The JSON codec, SHA-256 and the calendar are parameters: every theorem holds for all of them,
    and SHA-256 is never assumed to be injective. */
module ActivationRecords {
  import opened Options
  import opened Basics

  type Bytes = seq<bv8>

  /** `Numeric` covers every JSON scalar that Python compares equal to an integer (1, 1.0, true);
      `Other` covers arrays and the scalars that are neither text nor integral. */
  datatype Json =
    | Null
    | Numeric(value: int, repr: string)
    | Text(text: string)
    | Object(fields: Document)
    | Other(repr: string)

  /** The object keys this program uses, and every other key. */
  datatype Field =
    | SchemaVersion | Event | ActivationId | ActivatedAt
    | StackName | ContainerName | ImageRef | SystemIdentifier | StoragePrefix | DataVolume | WalArchiveVolume
    | PreviousActivation | RecoveryEvidence
    | Sha256
    | OtherField(name: string)

  type Document = map<Field, Json>

  datatype Codec = Codec(
    parse: Bytes -> Option<Json>,
    encode: Document -> Bytes,           // canonical_payload
    sha256: Bytes -> string,             // hexdigest
    timestampOk: (int, string) -> bool,  // validate_timestamp at a clock reading
    stamp: int -> string,                // strftime of a clock reading
    detailOk: Document -> bool           // names, image digest, prefix and recovery evidence
  )

  const EVENT := "existing_postgres_backup_control_activated"
  const LEGACY_SCHEMA := 1
  const PREVIOUS_SCHEMA := 2
  const CURRENT_SCHEMA := 3

  const LEGACY_FIELDS: set<Field> := {
    SchemaVersion, Event, ActivationId, ActivatedAt, StackName, ContainerName, ImageRef, SystemIdentifier,
    DataVolume, WalArchiveVolume
  }
  const RECOVERY_FIELDS: set<Field> := {PreviousActivation, RecoveryEvidence}
  const IDENTITY_FIELDS: set<Field> := {
    StackName, ContainerName, ImageRef, SystemIdentifier, StoragePrefix, DataVolume, WalArchiveVolume
  }

  function ExpectedFields(schema: Json): set<Field> {
    if IsVersion(schema, LEGACY_SCHEMA) then LEGACY_FIELDS
    else if IsVersion(schema, PREVIOUS_SCHEMA) then LEGACY_FIELDS + RECOVERY_FIELDS
    else LEGACY_FIELDS + {StoragePrefix} + RECOVERY_FIELDS
  }

  predicate IsVersion(schema: Json, version: int) {
    schema.Numeric? && schema.value == version
  }

  function Get(d: Document, key: Field): Json {
    if key in d then d[key] else Null
  }

  predicate IsSafeId(s: string) {
    && 1 <= |s| <= 128
    && IsAlphanumeric(s[0] as int)
    && forall i | 0 <= i < |s| :: IsAlphanumeric(s[i] as int) || s[i] in "._-"
  }

  predicate IsSha256Hex(s: string) {
    |s| == 64 && forall i | 0 <= i < |s| :: '0' <= s[i] <= '9' || 'a' <= s[i] <= 'f'
  }

  predicate IsLink(j: Json) {
    && j.Object?
    && j.fields.Keys == {ActivationId, Sha256}
    && j.fields[ActivationId].Text? && IsSafeId(j.fields[ActivationId].text)
    && j.fields[Sha256].Text? && IsSha256Hex(j.fields[Sha256].text)
  }

  /** The time-independent part of record validation. */
  predicate WellFormed(c: Codec, d: Document) {
    && d.Keys == ExpectedFields(Get(d, SchemaVersion))
    && (IsVersion(Get(d, SchemaVersion), LEGACY_SCHEMA)
        || IsVersion(Get(d, SchemaVersion), PREVIOUS_SCHEMA)
        || IsVersion(Get(d, SchemaVersion), CURRENT_SCHEMA))
    && Get(d, Event) == Text(EVENT)
    && Get(d, ActivationId).Text? && IsSafeId(Get(d, ActivationId).text)
    && Get(d, ActivatedAt).Text?
    && c.detailOk(d)
    && (IsLegacy(d) || Get(d, PreviousActivation).Null? || IsLink(Get(d, PreviousActivation)))
  }

  predicate IsLegacy(d: Document) {
    IsVersion(Get(d, SchemaVersion), LEGACY_SCHEMA)
  }

  datatype Link = Link(id: string, sha256: string)

  /** The predecessor a document names; a legacy document names none whatever it contains. */
  function PredecessorOf(d: Document): Option<Link> {
    var previous := Get(d, PreviousActivation);
    if IsLegacy(d) || !IsLink(previous) then None
    else Some(Link(previous.fields[ActivationId].text, previous.fields[Sha256].text))
  }

  /** A validated payload with the fields the history is checked on. */
  datatype Record = Record(payload: Bytes, document: Document, id: string, at: string, previous: Option<Link>)

  /** validate_document: the record a payload stands for at clock reading `now`. */
  function Read(c: Codec, now: int, payload: Bytes): (r: Option<Record>)
    ensures r.Some? ==> r.value.payload == payload == c.encode(r.value.document)
    ensures r.Some? ==> c.timestampOk(now, r.value.at)
  {
    match c.parse(payload)
    case Some(Object(d)) =>
      if WellFormed(c, d) && c.encode(d) == payload && c.timestampOk(now, d[ActivatedAt].text)
      then Some(Record(payload, d, d[ActivationId].text, d[ActivatedAt].text, PredecessorOf(d)))
      else None
    case _ => None
  }

  lemma ReadFields(c: Codec, now: int, payload: Bytes, r: Record)
    requires Read(c, now, payload) == Some(r)
    ensures WellFormed(c, r.document)
    ensures Get(r.document, ActivationId) == Text(r.id) && Get(r.document, ActivatedAt) == Text(r.at)
    ensures r.previous == PredecessorOf(r.document)
  {
  }

  /** Only one payload stands for a document, its canonical form; and nothing else about it matters to the
      record it stands for. */
  lemma CanonicalIsUnique(c: Codec, now: int, later: int, a: Bytes, b: Bytes)
    requires Read(c, now, a).Some? && Read(c, later, b).Some?
    ensures a == b <==> Read(c, now, a).value.document == Read(c, later, b).value.document
    ensures a == b <==> Read(c, now, a) == Read(c, later, b)
  {
  }

  /** Validation depends on the clock through the timestamp alone. */
  lemma RereadLater(c: Codec, now: int, later: int, payload: Bytes)
    requires Read(c, now, payload).Some?
    ensures Read(c, later, payload) ==
      if c.timestampOk(later, Read(c, now, payload).value.at) then Read(c, now, payload) else None
  {
  }

  /** Python's `<` on strings. */
  predicate StringLess(a: string, b: string) {
    if a == [] then b != []
    else if b == [] then false
    else a[0] < b[0] || (a[0] == b[0] && StringLess(a[1..], b[1..]))
  }

  lemma {:induction false} StringOrderIsTotal(a: string, b: string, c: string)
    ensures !StringLess(a, a)
    ensures !StringLess(b, a) && !StringLess(c, b) ==> !StringLess(c, a)
  {
    if a != [] {
      StringOrderIsTotal(a[1..], if b == [] then [] else b[1..], if c == [] then [] else c[1..]);
    }
  }

  /** Two strings up to where they differ. */
  ghost predicate DifferAt(a: string, b: string, k: nat) {
    k <= |a| && k <= |b| && a[..k] == b[..k] && (if k < |a| && k < |b| then a[k] < b[k] else k == |a| < |b|)
  }

  /** The order is by the first character that differs, and a proper prefix comes first. */
  lemma {:induction false} StringLessMeans(a: string, b: string)
    ensures StringLess(a, b) <==> exists k: nat :: DifferAt(a, b, k)
  {
    if a == [] || b == [] || a[0] != b[0] {
      assert StringLess(a, b) ==> DifferAt(a, b, 0);
    } else {
      StringLessMeans(a[1..], b[1..]);
      if k: nat :| DifferAt(a[1..], b[1..], k) {
        assert a[..k + 1] == [a[0]] + a[1..][..k] && b[..k + 1] == [b[0]] + b[1..][..k];
        assert DifferAt(a, b, k + 1);
      }
      if k: nat :| DifferAt(a, b, k) {
        assert k > 0 && a[1..][..k - 1] == a[..k][1..] && b[1..][..k - 1] == b[..k][1..];
        assert DifferAt(a[1..], b[1..], k - 1);
      }
    }
  }

  function FileName(id: string): string { id + ".json" }

  predicate EndsWith(s: string, suffix: string) {
    |suffix| <= |s| && s[|s| - |suffix|..] == suffix
  }

  predicate IsRecordName(name: string) { EndsWith(name, ".json") }

  lemma FileNameIsInjective(a: string, b: string)
    ensures IsRecordName(FileName(a))
    ensures FileName(a) == FileName(b) ==> a == b
  {
    assert FileName(a)[..|a|] == a;
    assert FileName(b)[..|b|] == b;
    assert FileName(a)[|a|..] == ".json";
  }

  /** The names mkstemp can choose for a target: dot, target, dot, eight characters without a dot. */
  predicate IsTemporaryFor(name: string, target: string) {
    && |name| == |target| + 10
    && name[..|target| + 2] == "." + target + "."
    && forall i | |target| + 2 <= i < |name| ::
      'a' <= name[i] <= 'z' || '0' <= name[i] <= '9' || name[i] == '_'
  }

  predicate IsTail(tail: string) {
    |tail| == 8 && forall i | 0 <= i < 8 :: IsTailCharacter(tail[i])
  }

  predicate IsTailCharacter(c: char) {
    c in "abcdefghijklmnopqrstuvwxyz" || c in "0123456789" || c == '_'
  }

  lemma LetterIs(c: char)
    ensures c in "abcdefghijklmnopqrstuvwxyz" <==> 'a' <= c <= 'z'
  {
    var letters := "abcdefghijklmnopqrstuvwxyz";
    if 'a' <= c <= 'z' {
      assert letters[c as int - 'a' as int] == c;
    }
  }

  lemma DigitIs(c: char)
    ensures c in "0123456789" <==> '0' <= c <= '9'
  {
    var digits := "0123456789";
    if '0' <= c <= '9' {
      assert digits[c as int - '0' as int] == c;
    }
  }

  lemma TailCharacter(c: char)
    ensures IsTailCharacter(c) <==> 'a' <= c <= 'z' || '0' <= c <= '9' || c == '_'
  {
    LetterIs(c);
    DigitIs(c);
  }

  lemma TemporaryHasTail(name: string, target: string) returns (tail: string)
    requires IsTemporaryFor(name, target)
    ensures IsTail(tail) && name == "." + target + "." + tail
  {
    tail := name[|target| + 2..];
    forall i | 0 <= i < 8
      ensures IsTailCharacter(tail[i])
    {
      TailCharacter(name[|target| + 2 + i]);
    }
    assert name == name[..|target| + 2] + tail;
  }

  lemma TailIsTemporary(front: string, target: string, tail: string)
    requires IsTail(tail) && front == "." + target + "."
    ensures IsTemporaryFor(front + tail, target)
  {
    var name := front + tail;
    assert name[..|target| + 2] == front;
    forall i | |target| + 2 <= i < |name|
      ensures 'a' <= name[i] <= 'z' || '0' <= name[i] <= '9' || name[i] == '_'
    {
      TailCharacter(tail[i - |front|]);
    }
  }

  /** Those names, written out. */
  lemma TemporaryMeans(name: string, target: string)
    ensures IsTemporaryFor(name, target) <==> exists tail :: IsTail(tail) && name == "." + target + "." + tail
  {
    if IsTemporaryFor(name, target) {
      var tail := TemporaryHasTail(name, target);
    }
    if tail :| IsTail(tail) && name == "." + target + "." + tail {
      TailIsTemporary("." + target + ".", target, tail);
    }
  }

  lemma TemporaryIsNoRecord(name: string, target: string)
    requires IsTemporaryFor(name, target)
    ensures !IsRecordName(name)
  {
    assert name[|name| - 5..][0] == name[|name| - 5] != '.';
  }

  /** The deployment state directory: the current pointer, its temporaries, and the records
      directory (absent until first use) with everything in it. */
  datatype Disk = Disk(current: Option<Bytes>, scratch: map<string, Bytes>, records: Option<map<string, Bytes>>)
}
