/** What an accepted activation history is, and the loader that decides it. */
module ActivationChain {
  import opened Options
  import opened ActivationRecords

  /** How payloads are read at one moment, and how they are digested. */
  datatype ReaderFunctions = ReaderFunctions(read: Bytes -> Option<Record>, sha256: Bytes -> string)

  /** Reading hands back the payload it was given. */
  ghost predicate KeepsPayload(c: ReaderFunctions) {
    forall payload :: c.read(payload).Some? ==> c.read(payload).value.payload == payload
  }

  type Reader = c: ReaderFunctions | KeepsPayload(c) witness ReaderFunctions(_ => None, _ => "")

  /** load_chain's view of payloads at clock reading `now`. */
  function At(c: Codec, now: int): Reader {
    ReaderFunctions(payload => Read(c, now, payload), c.sha256)
  }

  predicate Valid(c: Reader, d: Record) {
    c.read(d.payload) == Some(d)
  }

  /** Oldest first: a root without predecessor, then records that each name the one before it by
      identifier and digest and do not run backwards in time. */
  ghost predicate Linked(c: Reader, chain: seq<Record>) {
    && (chain != [] ==> chain[0].previous == None)
    && Steps(c, chain)
  }

  ghost predicate Steps(c: Reader, chain: seq<Record>) {
    forall i | 0 < i < |chain| :: StepAt(c, chain, i)
  }

  ghost predicate StepAt(c: Reader, chain: seq<Record>, i: int)
    requires 0 < i < |chain|
  {
    Follows(c, chain[i - 1], chain[i])
  }

  ghost predicate Follows(c: Reader, before: Record, after: Record) {
    && after.previous == Some(Link(before.id, c.sha256(before.payload)))
    && !StringLess(after.at, before.at)
  }

  ghost predicate DistinctIds(chain: seq<Record>) {
    forall i, j | 0 <= i < j < |chain| :: chain[i].id != chain[j].id
  }

  /** `chain` is the whole content of the records directory. */
  ghost predicate Covers(c: Reader, records: map<string, Bytes>, chain: seq<Record>) {
    && (forall i | 0 <= i < |chain| :: Stores(c, records, chain[i]))
    && (forall name {:trigger IsNamed(chain, name)} | name in records :: IsNamed(chain, name))
  }

  ghost predicate IsNamed(chain: seq<Record>, name: string) {
    exists i :: 0 <= i < |chain| && name == FileName(chain[i].id)
  }

  ghost predicate Stores(c: Reader, records: map<string, Bytes>, d: Record) {
    FileName(d.id) in records && records[FileName(d.id)] == d.payload
  }

  /** The reference definition of acceptance. */
  ghost predicate IsHistory(c: Reader, disk: Disk, chain: seq<Record>) {
    && chain != []
    && disk.current == Some(chain[|chain| - 1].payload)
    && disk.records.Some?
    && (forall i | 0 <= i < |chain| :: Valid(c, chain[i]))
    && DistinctIds(chain)
    && Covers(c, disk.records.value, chain)
    && Linked(c, chain)
  }

  ghost predicate Accepted(c: Reader, disk: Disk) {
    exists chain :: IsHistory(c, disk, chain)
  }

  lemma OnlyRootHasNoPredecessor(c: Reader, chain: seq<Record>, k: nat)
    requires Linked(c, chain) && k < |chain|
    ensures chain[k].previous == None <==> k == 0
  {
    if k > 0 {
      assert StepAt(c, chain, k);
    }
  }

  /** The whole history is sorted by time, not only its neighbours. */
  lemma {:induction false} HistoryIsSorted(c: Reader, chain: seq<Record>, i: nat, j: nat)
    requires Linked(c, chain)
    requires i <= j < |chain|
    ensures !StringLess(chain[j].at, chain[i].at)
    decreases j
  {
    if i == j {
      StringOrderIsTotal(chain[i].at, "", "");
    } else {
      HistoryIsSorted(c, chain, i, j - 1);
      assert StepAt(c, chain, j);
      StringOrderIsTotal(chain[i].at, chain[j - 1].at, chain[j].at);
    }
  }

  datatype LoadError = NoCurrent | InvalidRecord | UnexpectedRecord | CurrentMismatch | Cycle | DigestMismatch | NotChronological

  /** Reading the records directory: each entry must be a valid record under its own name. */
  method ReadRecords(c: Reader, files: map<string, Bytes>)
    returns (r: Result<map<string, Record>, LoadError>)
    ensures r.Ok? <==> forall name | name in files :: IsEntry(c, name, files[name])
    ensures r.Ok? ==> forall id :: id in r.value <==> FileName(id) in files
    ensures r.Ok? ==> forall id | id in r.value :: c.read(files[FileName(id)]) == Some(r.value[id]) && r.value[id].id == id
  {
    var records: map<string, Record> := map[];
    var pending := files.Keys;
    while pending != {}
      invariant pending <= files.Keys
      invariant forall name | name in files && name !in pending :: IsEntry(c, name, files[name])
      invariant forall id :: id in records <==> FileName(id) in files && FileName(id) !in pending
      invariant forall id | id in records :: c.read(files[FileName(id)]) == Some(records[id]) && records[id].id == id
    {
      var name :| name in pending;
      if !IsRecordName(name) {
        return Err(UnexpectedRecord);
      }
      var record := c.read(files[name]);
      if record == None {
        return Err(InvalidRecord);
      }
      var id := record.value.id;
      if name != FileName(id) || id in records {
        return Err(UnexpectedRecord);
      }
      forall other | FileName(other) == name ensures other == id { FileNameIsInjective(other, id); }
      records := records[id := record.value];
      pending := pending - {name};
    }
    forall name | name in files
      ensures IsEntry(c, name, files[name])
    {
    }
    return Ok(records);
  }

  predicate IsEntry(c: Reader, name: string, payload: Bytes) {
    && IsRecordName(name)
    && c.read(payload).Some?
    && name == FileName(c.read(payload).value.id)
  }

  ghost predicate IsSuffix(tail: seq<Record>, chain: seq<Record>) {
    |tail| <= |chain| && chain[|chain| - |tail|..] == tail
  }

  /** What the walk has seen so far ends every history of the disk, if there is one. */
  ghost predicate Forced(c: Reader, disk: Disk, tail: seq<Record>) {
    forall chain | IsHistory(c, disk, chain) :: IsSuffix(tail, chain)
  }

  /** In a history, a record that names a predecessor has it directly before it, and it passes
      every check of the walk. */
  lemma BeforeTail(c: Reader, disk: Disk, tail: seq<Record>, chain: seq<Record>)
    returns (d: Record)
    requires tail != [] && tail[0].previous.Some?
    requires IsHistory(c, disk, chain) && IsSuffix(tail, chain)
    ensures |tail| < |chain| && d == chain[|chain| - |tail| - 1]
    ensures tail[0].previous == Some(Link(d.id, c.sha256(d.payload)))
    ensures !StringLess(tail[0].at, d.at)
    ensures Stores(c, disk.records.value, d) && Valid(c, d)
  {
    var k := |chain| - |tail|;
    assert chain[k] == chain[k..][0] == tail[0];
    assert k > 0 && StepAt(c, chain, k);
    d := chain[k - 1];
  }

  lemma ForcedExtends(c: Reader, disk: Disk, tail: seq<Record>, d: Record)
    requires tail != [] && Forced(c, disk, tail) && disk.records.Some?
    requires tail[0].previous.Some? && tail[0].previous.value.id == d.id
    requires FileName(d.id) in disk.records.value
    requires c.read(disk.records.value[FileName(d.id)]) == Some(d)
    ensures Forced(c, disk, [d] + tail)
  {
    forall chain | IsHistory(c, disk, chain)
      ensures IsSuffix([d] + tail, chain)
    {
      var before := BeforeTail(c, disk, tail, chain);
      assert before == d;
      var k := |chain| - |tail|;
      assert chain[k - 1..] == [chain[k - 1]] + chain[k..];
    }
  }

  /** Where there is a history, the named predecessor is stored with the named digest ... */
  lemma HistoryHasNamedPredecessor(c: Reader, disk: Disk, tail: seq<Record>)
    requires tail != [] && Forced(c, disk, tail) && disk.records.Some? && tail[0].previous.Some?
    ensures Accepted(c, disk) ==>
      var link := tail[0].previous.value;
      && FileName(link.id) in disk.records.value
      && c.sha256(disk.records.value[FileName(link.id)]) == link.sha256
  {
    if Accepted(c, disk) {
      var chain: seq<Record> :| IsHistory(c, disk, chain);
      var d := BeforeTail(c, disk, tail, chain);
    }
  }

  /** ... is no younger than its successor ... */
  lemma HistoryIsChronological(c: Reader, disk: Disk, d: Record, tail: seq<Record>)
    requires tail != [] && Forced(c, disk, [d] + tail)
    ensures Accepted(c, disk) ==> !StringLess(tail[0].at, d.at)
  {
    if Accepted(c, disk) {
      var chain: seq<Record> :| IsHistory(c, disk, chain);
      var k := |chain| - |tail|;
      assert chain[k - 1..][0] == d && chain[k - 1..][1] == tail[0];
      assert chain[k - 1] == d && chain[k] == tail[0] && StepAt(c, chain, k);
    }
  }

  /** ... and never repeats an identifier. */
  lemma HistoryHasNoCycle(c: Reader, disk: Disk, tail: seq<Record>, j: nat)
    requires 0 < j < |tail| && Forced(c, disk, tail)
    ensures Accepted(c, disk) ==> tail[j].id != tail[0].id
  {
  }

  /** A walk that ended at a root is the only candidate for a history, so it must cover the directory. */
  lemma RootedTailIsAll(c: Reader, disk: Disk, tail: seq<Record>)
    requires tail != [] && tail[0].previous == None && Forced(c, disk, tail)
    ensures Accepted(c, disk) ==> IsHistory(c, disk, tail)
  {
    if Accepted(c, disk) {
      var chain: seq<Record> :| IsHistory(c, disk, chain);
      var k := |chain| - |tail|;
      assert chain[k..][0] == chain[k] == tail[0];
      OnlyRootHasNoPredecessor(c, chain, k);
      assert chain[0..] == chain;
    }
  }

  lemma CurrentIsStored(c: Reader, disk: Disk, d: Record)
    requires disk.current.Some? && c.read(disk.current.value) == Some(d) && disk.records.Some?
    ensures Accepted(c, disk) ==>
      FileName(d.id) in disk.records.value && disk.records.value[FileName(d.id)] == disk.current.value
  {
  }

  /** Every file of an accepted disk reads as a record under its own name. */
  lemma HistoryEntries(c: Reader, disk: Disk)
    ensures Accepted(c, disk) ==>
      && disk.current.Some? && c.read(disk.current.value).Some? && disk.records.Some?
      && forall name | name in disk.records.value :: IsEntry(c, name, disk.records.value[name])
  {
    if Accepted(c, disk) {
      var chain: seq<Record> :| IsHistory(c, disk, chain);
      assert Valid(c, chain[|chain| - 1]);
      forall name | name in disk.records.value
        ensures IsEntry(c, name, disk.records.value[name])
      {
        assert IsNamed(chain, name);
        var i :| 0 <= i < |chain| && name == FileName(chain[i].id);
        assert Valid(c, chain[i]) && Stores(c, disk.records.value, chain[i]);
      }
    }
  }

  ghost predicate IsIndex(c: Reader, files: map<string, Bytes>, records: map<string, Record>) {
    && (forall id :: id in records <==> FileName(id) in files)
    && (forall id | id in records :: c.read(files[FileName(id)]) == Some(records[id]) && records[id].id == id)
    && (forall name | name in files :: IsEntry(c, name, files[name]))
  }

  /** The state of the walk: `tail` runs from the cursor to the current record. */
  ghost predicate Walked(c: Reader, disk: Disk, records: map<string, Record>, tail: seq<Record>, seen: set<string>) {
    && tail != []
    && disk.current == Some(tail[|tail| - 1].payload)
    && (forall i | 0 <= i < |tail| :: tail[i].id in records && records[tail[i].id] == tail[i])
    && Steps(c, tail)
    && AreIds(seen, tail, 1)
    && DistinctIds(tail[1..])
    && Forced(c, disk, tail)
  }

  lemma WalkBegins(c: Reader, disk: Disk, records: map<string, Record>, d: Record)
    requires disk.current.Some? && c.read(disk.current.value) == Some(d)
    requires d.id in records && records[d.id] == d
    ensures Walked(c, disk, records, [d], {})
  {
  }

  lemma WalkExtends(c: Reader, disk: Disk, records: map<string, Record>, tail: seq<Record>, seen: set<string>, d: Record)
    requires Walked(c, disk, records, tail, seen) && tail[0].id !in seen
    requires disk.records.Some? && IsIndex(c, disk.records.value, records)
    requires d.id in records && records[d.id] == d
    requires Follows(c, d, tail[0])
    ensures Walked(c, disk, records, [d] + tail, seen + {tail[0].id})
  {
    var longer := [d] + tail;
    ForcedExtends(c, disk, tail, d);
    SeenExtends(seen, tail, d);
    DistinctIdsExtend(tail);
    StepsExtend(c, d, tail);
    assert longer[1..] == tail;
    assert forall i | 1 <= i < |longer| :: longer[i] == tail[i - 1];
  }

  lemma SeenExtends(seen: set<string>, tail: seq<Record>, d: Record)
    requires tail != [] && AreIds(seen, tail, 1) && tail[0].id !in seen
    ensures AreIds(seen + {tail[0].id}, [d] + tail, 1)
    ensures forall i | 1 <= i < |tail| :: tail[i].id != tail[0].id
  {
    var longer := [d] + tail;
    assert longer[1] == tail[0];
    assert forall i | 0 <= i < |tail| :: tail[i] == longer[i + 1];
    assert forall i | 1 <= i < |longer| :: longer[i] == tail[i - 1];
  }

  /** Where there is a history, the walk passes every check on the way to the next record. */
  lemma WalkMustContinue(c: Reader, disk: Disk, records: map<string, Record>, tail: seq<Record>, seen: set<string>)
    requires Walked(c, disk, records, tail, seen) && tail[0].previous.Some?
    requires disk.records.Some? && IsIndex(c, disk.records.value, records)
    ensures Accepted(c, disk) ==>
      var link := tail[0].previous.value;
      link.id in records && Follows(c, records[link.id], tail[0])
  {
    HistoryHasNamedPredecessor(c, disk, tail);
    var id := tail[0].previous.value.id;
    if id in records {
      ForcedExtends(c, disk, tail, records[id]);
      HistoryIsChronological(c, disk, records[id], tail);
    }
  }

  lemma DistinctIdsExtend(tail: seq<Record>)
    requires tail != [] && DistinctIds(tail[1..])
    requires forall i | 1 <= i < |tail| :: tail[i].id != tail[0].id
    ensures DistinctIds(tail)
  {
  }

  lemma StepsExtend(c: Reader, d: Record, tail: seq<Record>)
    requires tail != [] && Steps(c, tail) && Follows(c, d, tail[0])
    ensures Steps(c, [d] + tail)
  {
    var chain := [d] + tail;
    forall i | 0 < i < |chain|
      ensures StepAt(c, chain, i)
    {
      assert chain[i] == tail[i - 1];
      assert i > 1 ==> StepAt(c, tail, i - 1);
    }
  }

  /** A walk that ended at a root makes a history exactly when it met every record. */
  lemma FinishedWalk(c: Reader, disk: Disk, records: map<string, Record>, tail: seq<Record>, seen: set<string>)
    requires Walked(c, disk, records, tail, seen) && tail[0].id !in seen && tail[0].previous == None
    requires disk.records.Some? && IsIndex(c, disk.records.value, records)
    ensures Accepted(c, disk) <==> seen + {tail[0].id} == records.Keys
    ensures Accepted(c, disk) ==> IsHistory(c, disk, tail)
  {
    if seen + {tail[0].id} == records.Keys {
      CompleteWalkIsHistory(c, disk, records, tail, seen);
    }
    if Accepted(c, disk) {
      RootedTailIsAll(c, disk, tail);
      HistoryMeetsAll(c, disk, records, tail);
      SeenAndRoot(seen, tail, records.Keys);
    }
  }

  ghost predicate AreIds(ids: set<string>, tail: seq<Record>, from: nat) {
    forall id :: id in ids <==> exists i :: from <= i < |tail| && tail[i].id == id
  }

  lemma SeenAndRoot(seen: set<string>, tail: seq<Record>, keys: set<string>)
    requires tail != [] && AreIds(seen, tail, 1) && AreIds(keys, tail, 0)
    ensures seen + {tail[0].id} == keys
  {
  }

  lemma HistoryMeetsAll(c: Reader, disk: Disk, records: map<string, Record>, tail: seq<Record>)
    requires IsHistory(c, disk, tail) && IsIndex(c, disk.records.value, records)
    ensures AreIds(records.Keys, tail, 0)
  {
    forall id | id in records
      ensures exists i :: 0 <= i < |tail| && tail[i].id == id
    {
      assert IsNamed(tail, FileName(id));
      var i :| 0 <= i < |tail| && FileName(id) == FileName(tail[i].id);
      FileNameIsInjective(id, tail[i].id);
    }
    forall i | 0 <= i < |tail| ensures tail[i].id in records { assert Stores(c, disk.records.value, tail[i]); }
  }

  lemma CompleteWalkIsHistory(c: Reader, disk: Disk, records: map<string, Record>, tail: seq<Record>, seen: set<string>)
    requires Walked(c, disk, records, tail, seen) && tail[0].id !in seen && tail[0].previous == None
    requires disk.records.Some? && IsIndex(c, disk.records.value, records)
    requires seen + {tail[0].id} == records.Keys
    ensures IsHistory(c, disk, tail)
  {
    var files := disk.records.value;
    DistinctIdsExtend(tail);
    assert forall i | 0 <= i < |tail| :: Stores(c, files, tail[i]) && Valid(c, tail[i]);
    forall name | name in files
      ensures IsNamed(tail, name)
    {
      assert IsEntry(c, name, files[name]);
      var id := c.read(files[name]).value.id;
      assert id in records;
      var i :| 0 <= i < |tail| && tail[i].id == id;
    }
  }

  /** The second half of load_chain: from the current record back to its root. */
  method FollowLinks(c: Reader, disk: Disk, document: Record, records: map<string, Record>)
    returns (r: Result<Record, LoadError>, ghost history: seq<Record>)
    requires disk.current.Some? && c.read(disk.current.value) == Some(document)
    requires disk.records.Some? && IsIndex(c, disk.records.value, records)
    ensures r.Ok? <==> Accepted(c, disk)
    ensures r.Ok? ==> IsHistory(c, disk, history) && r.value == history[|history| - 1] == document
  {
    history := [document];
    CurrentIsStored(c, disk, document);
    if document.id !in records {
      return Err(UnexpectedRecord), history;
    }
    if disk.current.value != disk.records.value[FileName(document.id)] || document != records[document.id] {
      return Err(CurrentMismatch), history;
    }
    WalkBegins(c, disk, records, document);
    r, history := WalkBack(c, disk, document, records);
  }

  /** The loop: one record further back each time round. */
  method WalkBack(c: Reader, disk: Disk, document: Record, records: map<string, Record>)
    returns (r: Result<Record, LoadError>, ghost history: seq<Record>)
    requires disk.records.Some? && IsIndex(c, disk.records.value, records) && Walked(c, disk, records, [document], {})
    ensures r.Ok? <==> Accepted(c, disk)
    ensures r.Ok? ==> IsHistory(c, disk, history) && r.value == history[|history| - 1] == document
  {
    history := [document];
    var seen: set<string> := {};
    var cursor := document;
    while true
      invariant Walked(c, disk, records, history, seen)
      invariant history[0] == cursor && history[|history| - 1] == document
      decreases records.Keys - seen
    {
      if cursor.id in seen {
        ghost var j :| 1 <= j < |history| && history[j].id == cursor.id;
        HistoryHasNoCycle(c, disk, history, j);
        return Err(Cycle), history;
      }
      var previous := cursor.previous;
      if previous == None {
        break;
      }
      WalkMustContinue(c, disk, records, history, seen);
      var id := previous.value.id;
      if id !in records {
        return Err(UnexpectedRecord), history;
      }
      if c.sha256(disk.records.value[FileName(id)]) != previous.value.sha256 {
        return Err(DigestMismatch), history;
      }
      var predecessor := records[id];
      if StringLess(cursor.at, predecessor.at) {
        return Err(NotChronological), history;
      }
      WalkExtends(c, disk, records, history, seen, predecessor);
      history := [predecessor] + history;
      seen := seen + {cursor.id};
      cursor := predecessor;
    }
    FinishedWalk(c, disk, records, history, seen);
    r := if seen + {cursor.id} != records.Keys then Err(UnexpectedRecord) else Ok(document);
  }

  /** load_chain: accepts exactly the disks that hold a history, and always terminates. */
  method LoadChain(c: Reader, disk: Disk) returns (r: Result<Record, LoadError>, ghost history: seq<Record>)
    ensures r.Ok? <==> Accepted(c, disk)
    ensures r.Ok? ==> IsHistory(c, disk, history) && r.value == history[|history| - 1]
  {
    HistoryEntries(c, disk);
    if disk.current == None {
      return Err(NoCurrent), [];
    }
    var current := c.read(disk.current.value);
    if current == None {
      return Err(InvalidRecord), [];
    }
    if disk.records == None {
      return Err(UnexpectedRecord), [];
    }
    var scan := ReadRecords(c, disk.records.value);
    if scan.Err? {
      return Err(scan.error), [];
    }
    r, history := FollowLinks(c, disk, current.value, scan.value);
  }
}
