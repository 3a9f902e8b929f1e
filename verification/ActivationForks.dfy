/** Which directories a set of publishers can reach, however their filesystem calls interleave and wherever
    they crash: the history grows by one record at a time, or it forks, and a fork is never accepted again. */
module ActivationForks {
  import opened Options
  import opened ActivationRecords
  import opened ActivationChain
  import opened ActivationPublish
  import opened ActivationRuns
  import opened ActivationCrash

  // ---- a fork ----

  ghost predicate Readable(c: Codec, r: Record) {
    exists now :: Read(c, now, r.payload) == Some(r)
  }

  ghost predicate IsStored(c: Codec, disk: Disk, r: Record) {
    Readable(c, r) && FileName(r.id) in Files(disk) && Files(disk)[FileName(r.id)] == r.payload
  }

  /** Both name the same predecessor, or neither names one. */
  predicate SamePredecessor(a: Record, b: Record) {
    match a.previous
    case None => b.previous.None?
    case Some(link) => b.previous.Some? && b.previous.value.id == link.id
  }

  ghost predicate ForksAt(c: Codec, disk: Disk, a: Record, b: Record) {
    IsStored(c, disk, a) && IsStored(c, disk, b) && a.id != b.id && SamePredecessor(a, b)
  }

  ghost predicate Forked(c: Codec, disk: Disk) {
    exists a, b :: ForksAt(c, disk, a, b)
  }

  lemma SamePlace(c: Reader, chain: seq<Record>, i: nat, j: nat)
    requires Linked(c, chain) && DistinctIds(chain) && i < |chain| && j < |chain|
    requires SamePredecessor(chain[i], chain[j])
    ensures i == j
  {
    OnlyRootHasNoPredecessor(c, chain, i);
    OnlyRootHasNoPredecessor(c, chain, j);
    if i > 0 && j > 0 {
      assert StepAt(c, chain, i) && StepAt(c, chain, j);
      assert chain[i - 1].id == chain[j - 1].id;
    }
  }

  lemma StoredIsInHistory(c: Codec, now: int, disk: Disk, chain: seq<Record>, r: Record) returns (i: nat)
    requires IsHistory(At(c, now), disk, chain) && IsStored(c, disk, r)
    ensures i < |chain| && chain[i] == r
  {
    assert IsNamed(chain, FileName(r.id));
    i :| 0 <= i < |chain| && FileName(r.id) == FileName(chain[i].id);
    FileNameIsInjective(r.id, chain[i].id);
    assert Stores(At(c, now), disk.records.value, chain[i]) && Valid(At(c, now), chain[i]);
    var seenAt: int :| Read(c, seenAt, r.payload) == Some(r);
    RereadLater(c, seenAt, now, r.payload);
  }

  lemma ForkIsRefused(c: Codec, disk: Disk, now: int)
    requires Forked(c, disk)
    ensures !Accepted(At(c, now), disk)
  {
    if Accepted(At(c, now), disk) {
      var chain: seq<Record> :| IsHistory(At(c, now), disk, chain);
      var a, b :| ForksAt(c, disk, a, b);
      var i := StoredIsInHistory(c, now, disk, chain, a);
      var j := StoredIsInHistory(c, now, disk, chain, b);
      SamePlace(At(c, now), chain, i, j);
    }
  }

  lemma ForkStays(c: Codec, before: Disk, after: Disk)
    requires Forked(c, before) && Grows(before, after)
    ensures Forked(c, after)
  {
    var a, b :| ForksAt(c, before, a, b);
    FileNameIsInjective(a.id, b.id);
    FileNameIsInjective(b.id, a.id);
    assert ForksAt(c, after, a, b);
  }

  /** Whatever the publishers go on to do, and whatever the clock then reads, a fork is never accepted. */
  lemma ForkIsFatal(c: Codec, s: System, schedule: seq<Event>, now: int)
    requires Sound(s) && Forked(c, s.disk)
    ensures !Accepted(At(c, now), Run(c, s, schedule).disk)
  {
    RunGrows(c, s, schedule);
    ForkStays(c, s.disk, Run(c, s, schedule).disk);
    ForkIsRefused(c, Run(c, s, schedule).disk, now);
  }

  // ---- a directory that has not forked ----

  ghost predicate LinkedAt(c: Codec, chain: seq<Record>, i: int)
    requires 0 <= i < |chain|
  {
    chain[i].previous == LastLink(c, chain[..i])
  }

  /** The record files are exactly those of `chain`, and each record names the one before it. Nothing is
      said of times. */
  ghost predicate NamedChain(c: Codec, disk: Disk, chain: seq<Record>) {
    && (forall i | 0 <= i < |chain| :: IsStored(c, disk, chain[i]))
    && (forall i | 0 <= i < |chain| :: LinkedAt(c, chain, i))
    && DistinctIds(chain)
    && forall name {:trigger IsNamed(chain, name)} | name in Files(disk) && IsRecordName(name) :: IsNamed(chain, name)
  }

  lemma StoredIsNamed(c: Codec, disk: Disk, chain: seq<Record>, r: Record) returns (i: nat)
    requires NamedChain(c, disk, chain) && IsStored(c, disk, r)
    ensures i < |chain| && chain[i] == r
  {
    FileNameIsInjective(r.id, r.id);
    assert IsNamed(chain, FileName(r.id));
    i :| 0 <= i < |chain| && FileName(r.id) == FileName(chain[i].id);
    FileNameIsInjective(r.id, chain[i].id);
    assert IsStored(c, disk, chain[i]);
    SamePayload(c, r, chain[i]);
  }

  lemma SamePlaceInChain(c: Codec, chain: seq<Record>, i: nat, j: nat)
    requires i < |chain| && j < |chain| && LinkedAt(c, chain, i) && LinkedAt(c, chain, j) && DistinctIds(chain)
    requires SamePredecessor(chain[i], chain[j])
    ensures i == j
  {
    if i > 0 && j > 0 {
      assert chain[..i][i - 1] == chain[i - 1] && chain[..j][j - 1] == chain[j - 1];
      assert chain[i - 1].id == chain[j - 1].id;
    }
  }

  /** One chain and a fork exclude each other. */
  lemma ChainHasNoFork(c: Codec, disk: Disk, chain: seq<Record>)
    requires NamedChain(c, disk, chain)
    ensures !Forked(c, disk)
  {
    forall a, b
      ensures !ForksAt(c, disk, a, b)
    {
      if IsStored(c, disk, a) && IsStored(c, disk, b) && SamePredecessor(a, b) {
        var i := StoredIsNamed(c, disk, chain, a);
        var j := StoredIsNamed(c, disk, chain, b);
        SamePlaceInChain(c, chain, i, j);
      }
    }
  }

  /** The current file names the record at `known - 1`, which is the last record or the one before it. */
  ghost predicate Names(c: Codec, disk: Disk, chain: seq<Record>, known: nat) {
    && known <= |chain| <= known + 1
    && NamedChain(c, disk, chain)
    && disk.current == if known == 0 then None else Some(chain[known - 1].payload)
  }

  /** The temporary in the records directory that a publisher has to remove. */
  predicate Holds(place: Place, name: string) {
    match place
    case Staged(_, temporary) => temporary == name
    case Written(_, temporary) => temporary == name
    case Collided(temporary) => temporary == name
    case LinkedRecord(_, temporary) => temporary == name
    case _ => false
  }

  /** It has linked its record and has still to point to it. */
  predicate IsPending(place: Place) {
    place.LinkedRecord? || place.Recorded? || place.PointerStaged? || place.PointerWritten?
  }

  /** Between its first call that writes and its last. */
  predicate IsBusy(place: Place) {
    place.Staged? || place.Written? || place.Collided? || IsPending(place)
  }

  ghost predicate HasTemporary(disk: Disk, name: string) {
    name in Files(disk) && !IsRecordName(name)
  }

  ghost predicate IsKnown(chain: seq<Record>, known: nat, payload: Bytes)
    requires known <= |chain|
  {
    exists k :: 0 <= k < known && chain[k].payload == payload
  }

  ghost predicate IsAmong(chain: seq<Record>, known: nat, r: Record)
    requires known <= |chain|
  {
    exists k :: 0 <= k < known && chain[k] == r
  }

  ghost predicate LinksToKnown(c: Codec, chain: seq<Record>, known: nat, previous: Option<Link>)
    requires known <= |chain|
  {
    exists k :: 0 <= k <= known && previous == LastLink(c, chain[..k])
  }

  ghost predicate SucceedsKnown(c: Codec, req: Request, chain: seq<Record>, known: nat, r: Record)
    requires known <= |chain|
  {
    exists k :: 0 <= k <= known && IsSuccessor(c, req, chain[..k], r)
  }

  predicate IsLast(chain: seq<Record>, known: nat, r: Record) {
    |chain| == known + 1 && chain[known] == r
  }

  /** What each place has read or written so far, in terms of the chain. */
  ghost predicate Fits(c: Codec, req: Request, disk: Disk, chain: seq<Record>, known: nat, place: Place)
    requires known <= |chain|
  {
    match place
    case Start => true
    case Exists => true
    case Loading(payload) => IsKnown(chain, known, payload)
    case NeedDirectory(previous) => LinksToKnown(c, chain, known, previous)
    case Listing(previous) => LinksToKnown(c, chain, known, previous)
    case Prepared(r) => SucceedsKnown(c, req, chain, known, r)
    case Staged(r, name) => SucceedsKnown(c, req, chain, known, r) && HasTemporary(disk, name)
    case Written(r, name) =>
      SucceedsKnown(c, req, chain, known, r) && HasTemporary(disk, name) && Files(disk)[name] == r.payload
    case Collided(name) => HasTemporary(disk, name)
    case LinkedRecord(r, name) => HasTemporary(disk, name) && IsLast(chain, known, r)
    case Recorded(r) => IsLast(chain, known, r)
    case PointerStaged(r, name) => IsLast(chain, known, r) && name in disk.scratch
    case PointerWritten(r, name) => IsLast(chain, known, r) && name in disk.scratch && disk.scratch[name] == r.payload
    case Done(AlreadyCurrent(r)) => IsAmong(chain, known, r)
    case Done(Published(r)) => IsAmong(chain, known, r)
    case Done(Refused) => true
  }

  ghost predicate FitsAt(c: Codec, s: System, chain: seq<Record>, known: nat, i: int)
    requires known <= |chain| && 0 <= i < |s.publishers|
  {
    var p := s.publishers[i];
    IsRequest(p.request) && Fits(c, p.request, s.disk, chain, known, p.place)
  }

  /** Two publishers share no temporary, and only one can have linked a record the current file does not name. */
  ghost predicate Apart(a: Place, b: Place) {
    && (forall name | Holds(a, name) :: !Holds(b, name))
    && !(IsPending(a) && IsPending(b))
  }

  ghost predicate IsHeld(s: System, name: string) {
    exists i :: 0 <= i < |s.publishers| && Holds(s.publishers[i].place, name)
  }

  ghost predicate SomeonePending(s: System) {
    exists i :: 0 <= i < |s.publishers| && IsPending(s.publishers[i].place)
  }

  /** A directory that has not forked, and where everybody is. */
  ghost predicate Linear(c: Codec, s: System, chain: seq<Record>, known: nat) {
    && Names(c, s.disk, chain, known)
    && (forall i | 0 <= i < |s.publishers| :: FitsAt(c, s, chain, known, i))
    && (forall i, j | 0 <= i < |s.publishers| && 0 <= j < |s.publishers| && i != j ::
          Apart(s.publishers[i].place, s.publishers[j].place))
    && (forall name {:trigger IsHeld(s, name)} | HasTemporary(s.disk, name) :: IsHeld(s, name))
    && (known < |chain| ==> SomeonePending(s))
  }

  /** One call of one publisher, as the others see it. */
  ghost predicate KeepsOthers(disk: Disk, place: Place, disk': Disk, place': Place) {
    && (forall name | HasTemporary(disk, name) && !Holds(place, name) ::
          name in Files(disk') && Files(disk')[name] == Files(disk)[name])
    && (forall name | HasTemporary(disk', name) :: Holds(place', name) || (HasTemporary(disk, name) && !Holds(place, name)))
    && (forall name | Holds(place', name) :: Holds(place, name) || !HasTemporary(disk, name))
  }

  ghost predicate Moves(c: Codec, req: Request, disk: Disk, place: Place, disk': Disk, place': Place,
                        chain: seq<Record>, known: nat, chain': seq<Record>, known': nat)
  {
    && Names(c, disk', chain', known') && Fits(c, req, disk', chain', known', place')
    && chain <= chain' && known <= known'
    && KeepsOthers(disk, place, disk', place')
    && (if IsPending(place) then chain' == chain && (IsPending(place') || known' == |chain|)
        else if IsPending(place') then known == |chain|
        else chain' == chain && known' == known && disk'.scratch == disk.scratch)
  }

  lemma PrefixesAgree(chain: seq<Record>, longer: seq<Record>, k: nat)
    requires chain <= longer && k <= |chain|
    ensures longer[..k] == chain[..k]
  {
  }

  lemma OtherFits(c: Codec, req: Request, disk: Disk, disk': Disk, chain: seq<Record>, known: nat,
                  chain': seq<Record>, known': nat, place: Place)
    requires known <= |chain| && Fits(c, req, disk, chain, known, place)
    requires chain <= chain' && known <= known' <= |chain'|
    requires forall name | Holds(place, name) :: name in Files(disk') && name in Files(disk) && Files(disk')[name] == Files(disk)[name]
    requires IsPending(place) ==> chain' == chain && known' == known && disk'.scratch == disk.scratch
    ensures Fits(c, req, disk', chain', known', place)
  {
    forall k | 0 <= k <= known
      ensures chain'[..k] == chain[..k]
    {
      PrefixesAgree(chain, chain', k);
    }
    match place
    case Loading(payload) =>
      var k :| 0 <= k < known && chain[k].payload == payload;
      assert chain'[k] == chain[k];
    case Done(outcome) =>
      if !outcome.Refused? {
        var k :| 0 <= k < known && chain[k] == outcome.record;
        assert chain'[k] == chain[k];
      }
    case Staged(_, name) => assert Holds(place, name);
    case Written(_, name) => assert Holds(place, name);
    case Collided(name) => assert Holds(place, name);
    case LinkedRecord(_, name) => assert Holds(place, name);
    case _ =>
  }
  /** After the call, every other publisher is where it was. */
  lemma OthersStay(c: Codec, s: System, who: nat, disk': Disk, place': Place, chain: seq<Record>, known: nat,
                   chain': seq<Record>, known': nat, j: nat)
    requires Linear(c, s, chain, known) && who < |s.publishers| && j < |s.publishers| && j != who
    requires Moves(c, s.publishers[who].request, s.disk, s.publishers[who].place, disk', place', chain, known, chain', known')
    ensures Fits(c, s.publishers[j].request, disk', chain', known', s.publishers[j].place)
    ensures Apart(place', s.publishers[j].place) && Apart(s.publishers[j].place, place')
  {
    var p, q := s.publishers[who], s.publishers[j];
    assert FitsAt(c, s, chain, known, j);
    assert Apart(p.place, q.place) && Apart(q.place, p.place);
    HeldIsThere(c, q.request, s.disk, chain, known, q.place);
    OtherFits(c, q.request, s.disk, disk', chain, known, chain', known', q.place);
  }

  lemma HeldIsThere(c: Codec, req: Request, disk: Disk, chain: seq<Record>, known: nat, place: Place)
    requires known <= |chain| && Fits(c, req, disk, chain, known, place)
    ensures forall name | Holds(place, name) :: HasTemporary(disk, name)
    ensures IsPending(place) ==> known < |chain|
  {
  }

  function After(s: System, who: nat, disk: Disk, place: Place): System
    requires who < |s.publishers|
  {
    System(disk, s.publishers[who := s.publishers[who].(place := place)])
  }

  lemma StillHeld(s: System, who: nat, disk': Disk, place': Place, name: string)
    requires who < |s.publishers| && KeepsOthers(s.disk, s.publishers[who].place, disk', place')
    requires HasTemporary(s.disk, name) ==> IsHeld(s, name)
    requires HasTemporary(disk', name)
    ensures IsHeld(After(s, who, disk', place'), name)
  {
    var after := After(s, who, disk', place');
    if Holds(place', name) {
      assert after.publishers[who].place == place';
    } else {
      var i :| 0 <= i < |s.publishers| && Holds(s.publishers[i].place, name);
      assert after.publishers[i] == s.publishers[i];
    }
  }

  lemma StillPending(c: Codec, s: System, who: nat, disk': Disk, place': Place, chain: seq<Record>, known: nat,
                     chain': seq<Record>, known': nat)
    requires who < |s.publishers| && Moves(c, s.publishers[who].request, s.disk, s.publishers[who].place, disk', place', chain, known, chain', known')
    requires known < |chain| ==> SomeonePending(s)
    ensures known' < |chain'| ==> SomeonePending(After(s, who, disk', place'))
  {
    var after := After(s, who, disk', place');
    assert after.publishers[who].place == place';
    if known' < |chain'| && !IsPending(place') {
      var i :| 0 <= i < |s.publishers| && IsPending(s.publishers[i].place);
      assert after.publishers[i] == s.publishers[i];
    }
  }

  lemma MoveKeepsLinear(c: Codec, s: System, who: nat, disk': Disk, place': Place, chain: seq<Record>, known: nat,
                        chain': seq<Record>, known': nat)
    requires Linear(c, s, chain, known) && who < |s.publishers|
    requires Moves(c, s.publishers[who].request, s.disk, s.publishers[who].place, disk', place', chain, known, chain', known')
    ensures Linear(c, After(s, who, disk', place'), chain', known')
  {
    var after := After(s, who, disk', place');
    forall j | 0 <= j < |s.publishers|
      ensures FitsAt(c, after, chain', known', j)
    {
      assert FitsAt(c, s, chain, known, j);
      if j != who {
        OthersStay(c, s, who, disk', place', chain, known, chain', known', j);
      }
    }
    forall i, j | 0 <= i < |s.publishers| && 0 <= j < |s.publishers| && i != j
      ensures Apart(after.publishers[i].place, after.publishers[j].place)
    {
      if i == who {
        OthersStay(c, s, who, disk', place', chain, known, chain', known', j);
      } else if j == who {
        OthersStay(c, s, who, disk', place', chain, known, chain', known', i);
      }
    }
    forall name | HasTemporary(disk', name)
      ensures IsHeld(after, name)
    {
      StillHeld(s, who, disk', place', name);
    }
    StillPending(c, s, who, disk', place', chain, known, chain', known');
  }

  // ---- the calls, one by one ----

  ghost predicate SameRecords(disk: Disk, disk': Disk) {
    && (forall name | IsRecordName(name) :: name in Files(disk) <==> name in Files(disk'))
    && (forall name | IsRecordName(name) && name in Files(disk) :: Files(disk')[name] == Files(disk)[name])
  }

  lemma SameRecordFiles(c: Codec, disk: Disk, disk': Disk, chain: seq<Record>)
    requires NamedChain(c, disk, chain) && SameRecords(disk, disk')
    ensures NamedChain(c, disk', chain)
  {
    forall i | 0 <= i < |chain|
      ensures IsStored(c, disk', chain[i])
    {
      assert IsStored(c, disk, chain[i]);
      FileNameIsInjective(chain[i].id, chain[i].id);
    }
  }

  /** A load that succeeds found the whole chain, whatever was in the current file it read. */
  lemma HistoryIsChain(c: Codec, now: int, disk: Disk, chain: seq<Record>, found: seq<Record>)
    requires IsHistory(At(c, now), disk, found) && NamedChain(c, disk, chain)
    ensures found == chain
  {
    AllAreIn(c, now, disk, chain, found);
    ChainIsFound(c, now, chain, found, |chain|);
    if |chain| < |found| {
      var i := FoundIsNamed(c, now, disk, chain, found, |chain|);
    }
  }

  lemma FoundIsNamed(c: Codec, now: int, disk: Disk, chain: seq<Record>, found: seq<Record>, j: nat) returns (i: nat)
    requires IsHistory(At(c, now), disk, found) && NamedChain(c, disk, chain) && j < |found|
    ensures i < |chain| && chain[i].id == found[j].id
  {
    assert Stores(At(c, now), disk.records.value, found[j]);
    FileNameIsInjective(found[j].id, found[j].id);
    assert IsNamed(chain, FileName(found[j].id));
    i :| 0 <= i < |chain| && FileName(found[j].id) == FileName(chain[i].id);
    FileNameIsInjective(found[j].id, chain[i].id);
  }

  ghost predicate IsIn(found: seq<Record>, r: Record) {
    exists j :: 0 <= j < |found| && found[j] == r
  }

  lemma AllAreIn(c: Codec, now: int, disk: Disk, chain: seq<Record>, found: seq<Record>)
    requires IsHistory(At(c, now), disk, found) && NamedChain(c, disk, chain)
    ensures forall i | 0 <= i < |chain| :: IsIn(found, chain[i])
  {
    forall i | 0 <= i < |chain|
      ensures IsIn(found, chain[i])
    {
      assert IsStored(c, disk, chain[i]);
      var j := StoredIsInHistory(c, now, disk, found, chain[i]);
    }
  }

  lemma {:induction false} ChainIsFound(c: Codec, now: int, chain: seq<Record>, found: seq<Record>, n: nat)
    requires Linked(At(c, now), found) && DistinctIds(found) && n <= |chain|
    requires forall i | 0 <= i < |chain| :: IsIn(found, chain[i])
    requires forall i | 0 <= i < |chain| :: LinkedAt(c, chain, i)
    ensures n <= |found| && forall i | 0 <= i < n :: found[i] == chain[i]
  {
    if n > 0 {
      ChainIsFound(c, now, chain, found, n - 1);
      assert IsIn(found, chain[n - 1]) && LinkedAt(c, chain, n - 1);
      var j: nat :| j < |found| && found[j] == chain[n - 1];
      SameIndex(c, now, chain, found, n - 1, j);
    }
  }

  lemma SameIndex(c: Codec, now: int, chain: seq<Record>, found: seq<Record>, i: nat, j: nat)
    requires Linked(At(c, now), found) && DistinctIds(found) && i < |chain| && LinkedAt(c, chain, i)
    requires i <= |found| && (i > 0 ==> found[i - 1] == chain[i - 1]) && j < |found| && found[j] == chain[i]
    ensures i == j
  {
    OnlyRootHasNoPredecessor(At(c, now), found, j);
    if i > 0 {
      assert chain[..i][i - 1] == chain[i - 1];
      assert StepAt(At(c, now), found, j);
      assert found[j - 1].id == found[i - 1].id;
    }
  }

  lemma SamePayload(c: Codec, a: Record, b: Record)
    requires Readable(c, a) && Readable(c, b) && a.payload == b.payload
    ensures a == b
  {
    var t: int :| Read(c, t, a.payload) == Some(a);
    RereadLater(c, t, t, a.payload);
  }

  lemma AcceptedIsChain(c: Codec, disk: Disk, chain: seq<Record>, now: int)
    requires NamedChain(c, disk, chain) && Accepted(At(c, now), disk)
    ensures IsHistory(At(c, now), disk, chain)
  {
    var found: seq<Record> :| IsHistory(At(c, now), disk, found);
    HistoryIsChain(c, now, disk, chain, found);
  }

  lemma KnownIsLast(c: Codec, disk: Disk, chain: seq<Record>, known: nat, payload: Bytes)
    requires NamedChain(c, disk, chain) && known <= |chain| && IsKnown(chain, known, payload)
    requires chain[|chain| - 1].payload == payload
    ensures known == |chain|
  {
    var k :| 0 <= k < known && chain[k].payload == payload;
    assert IsStored(c, disk, chain[k]) && IsStored(c, disk, chain[|chain| - 1]);
    SamePayload(c, chain[k], chain[|chain| - 1]);
  }

  /** The current file that an accepted load read named the end of the chain. */
  lemma LoadedIsLast(c: Codec, disk: Disk, chain: seq<Record>, known: nat, seen: Disk, payload: Bytes, now: int)
    requires NamedChain(c, disk, chain) && known <= |chain| && IsKnown(chain, known, payload)
    requires seen == disk.(current := Some(payload)) && Accepted(At(c, now), seen)
    ensures chain != [] && known == |chain| && Read(c, now, payload) == Some(chain[|chain| - 1])
  {
    SameRecordFiles(c, disk, seen, chain);
    AcceptedIsChain(c, seen, chain, now);
    LastIsRead(c, now, seen, chain);
    KnownIsLast(c, disk, chain, known, payload);
  }

  /** So the predecessor it hands on is that end. */
  lemma LoadingFits(c: Codec, req: Request, disk: Disk, chain: seq<Record>, known: nat, payload: Bytes, now: int)
    requires Names(c, disk, chain, known) && IsKnown(chain, known, payload)
    ensures Fits(c, req, disk, chain, known, AfterLoading(c, req, disk.(current := Some(payload)), payload, now))
  {
    var seen := disk.(current := Some(payload));
    if Accepted(At(c, now), seen) {
      LoadedIsLast(c, disk, chain, known, seen, payload, now);
      assert chain[..known] == chain;
    }
  }

  lemma AfterListingFits(c: Codec, req: Request, disk: Disk, chain: seq<Record>, known: nat, files: map<string, Bytes>, previous: Option<Link>, now: int)
    requires IsRequest(req) && known <= |chain| && LinksToKnown(c, chain, known, previous)
    ensures Fits(c, req, disk, chain, known, AfterListing(c, req, files, previous, now))
  {
    var k :| 0 <= k <= known && previous == LastLink(c, chain[..k]);
    if NewRecord(c, req, now, previous).Some? {
      NewRecordSucceeds(c, req, now, chain[..k], NewRecord(c, req, now, previous).value);
    }
  }

  /** A call that changes no record file and not the current file. */
  ghost predicate Keeps(c: Codec, req: Request, disk: Disk, place: Place, disk': Disk, place': Place, chain: seq<Record>, known: nat)
    requires known <= |chain|
  {
    && SameRecords(disk, disk') && disk'.current == disk.current && KeepsOthers(disk, place, disk', place')
    && Fits(c, req, disk', chain, known, place')
    && IsPending(place) == IsPending(place')
    && (IsPending(place) || disk'.scratch == disk.scratch)
  }

  ghost predicate StepKeeps(c: Codec, req: Request, disk: Disk, place: Place, input: Input, chain: seq<Record>, known: nat)
    requires known <= |chain|
  {
    var (disk', place') := Step(c, req, disk, place, input);
    Keeps(c, req, disk, place, disk', place', chain, known)
  }

  lemma KeepsMoves(c: Codec, req: Request, disk: Disk, place: Place, disk': Disk, place': Place, chain: seq<Record>, known: nat)
    requires Names(c, disk, chain, known) && Keeps(c, req, disk, place, disk', place', chain, known)
    ensures Moves(c, req, disk, place, disk', place', chain, known, chain, known)
  {
    SameRecordFiles(c, disk, disk', chain);
  }

  lemma ReadingFits(c: Codec, req: Request, disk: Disk, place: Place, input: Input, chain: seq<Record>, known: nat)
    requires IsRequest(req) && Names(c, disk, chain, known) && Fits(c, req, disk, chain, known, place)
    requires !IsBusy(place) && !place.Prepared?
    ensures var (disk', place') := Step(c, req, disk, place, input); Fits(c, req, disk', chain, known, place')
  {
    match place
    case Start => assert chain[..0] == [];
    case Loading(payload) => LoadingFits(c, req, disk, chain, known, payload, input.now);
    case Listing(previous) => AfterListingFits(c, req, disk, chain, known, Files(disk), previous, input.now);
    case _ =>
  }

  predicate IsQuiet(disk: Disk, place: Place, disk': Disk, place': Place) {
    && !IsBusy(place) && !IsBusy(place')
    && Files(disk') == Files(disk) && disk'.current == disk.current && disk'.scratch == disk.scratch
  }

  /** Reading calls and mkdir change no file. */
  lemma ReadingIsQuiet(c: Codec, req: Request, disk: Disk, place: Place, input: Input)
    requires !IsBusy(place) && !place.Prepared?
    ensures var (disk', place') := Step(c, req, disk, place, input); IsQuiet(disk, place, disk', place')
  {
  }

  lemma QuietKeeps(c: Codec, req: Request, disk: Disk, place: Place, disk': Disk, place': Place, chain: seq<Record>, known: nat)
    requires known <= |chain| && IsQuiet(disk, place, disk', place') && Fits(c, req, disk', chain, known, place')
    ensures Keeps(c, req, disk, place, disk', place', chain, known)
  {
  }

  lemma ReadingKeeps(c: Codec, req: Request, disk: Disk, place: Place, input: Input, chain: seq<Record>, known: nat)
    requires IsRequest(req) && Names(c, disk, chain, known) && Fits(c, req, disk, chain, known, place)
    requires !IsBusy(place) && !place.Prepared?
    ensures StepKeeps(c, req, disk, place, input, chain, known)
  {
    ReadingFits(c, req, disk, place, input, chain, known);
    ReadingIsQuiet(c, req, disk, place, input);
    var (disk', place') := Step(c, req, disk, place, input);
    QuietKeeps(c, req, disk, place, disk', place', chain, known);
  }

  lemma MkstempKeeps(c: Codec, req: Request, disk: Disk, r: Record, name: string, chain: seq<Record>, known: nat)
    requires known <= |chain| && SucceedsKnown(c, req, chain, known, r) && name !in Files(disk) && !IsRecordName(name)
    ensures Keeps(c, req, disk, Prepared(r), WithFile(disk, name, []), Staged(r, name), chain, known)
  {
  }

  lemma PreparedKeeps(c: Codec, req: Request, disk: Disk, r: Record, input: Input, chain: seq<Record>, known: nat)
    requires known <= |chain| && Fits(c, req, disk, chain, known, Prepared(r))
    ensures StepKeeps(c, req, disk, Prepared(r), input, chain, known)
  {
    if IsTemporaryFor(input.name, FileName(r.id)) && input.name !in Files(disk) {
      TemporaryIsNoRecord(input.name, FileName(r.id));
      MkstempKeeps(c, req, disk, r, input.name, chain, known);
    } else {
      QuietKeeps(c, req, disk, Prepared(r), disk, Prepared(r), chain, known);
    }
  }

  lemma StagedKeeps(c: Codec, req: Request, disk: Disk, r: Record, name: string, input: Input, chain: seq<Record>, known: nat)
    requires known <= |chain| && Fits(c, req, disk, chain, known, Staged(r, name))
    ensures StepKeeps(c, req, disk, Staged(r, name), input, chain, known)
  {
    StagedKeepsOthers(disk, r, name);
  }

  lemma StagedKeepsOthers(disk: Disk, r: Record, name: string)
    requires HasTemporary(disk, name)
    ensures var disk' := WithFile(disk, name, r.payload);
      SameRecords(disk, disk') && KeepsOthers(disk, Staged(r, name), disk', Written(r, name))
  {
  }

  lemma UnlinkingKeeps(c: Codec, req: Request, disk: Disk, place: Place, input: Input, chain: seq<Record>, known: nat)
    requires known <= |chain| && Fits(c, req, disk, chain, known, place) && (place.Collided? || place.LinkedRecord?)
    ensures StepKeeps(c, req, disk, place, input, chain, known)
  {
  }

  lemma PointingKeeps(c: Codec, req: Request, disk: Disk, place: Place, input: Input, chain: seq<Record>, known: nat)
    requires known <= |chain| && Fits(c, req, disk, chain, known, place) && (place.Recorded? || place.PointerStaged?)
    ensures StepKeeps(c, req, disk, place, input, chain, known)
  {
  }

  lemma BusyStepKeeps(c: Codec, req: Request, disk: Disk, place: Place, input: Input, chain: seq<Record>, known: nat)
    requires known <= |chain| && Fits(c, req, disk, chain, known, place)
    requires IsBusy(place) && !place.Written? && !place.PointerWritten?
    ensures StepKeeps(c, req, disk, place, input, chain, known)
  {
    match place
    case Staged(r, name) => StagedKeeps(c, req, disk, r, name, input, chain, known);
    case Collided(_) => UnlinkingKeeps(c, req, disk, place, input, chain, known);
    case LinkedRecord(_, _) => UnlinkingKeeps(c, req, disk, place, input, chain, known);
    case _ => PointingKeeps(c, req, disk, place, input, chain, known);
  }

  /** Only the link and the rename change what the directory says. */
  lemma PlainStepKeeps(c: Codec, req: Request, disk: Disk, place: Place, input: Input, chain: seq<Record>, known: nat)
    requires IsRequest(req) && Names(c, disk, chain, known) && Fits(c, req, disk, chain, known, place)
    requires !place.Written? && !place.PointerWritten?
    ensures StepKeeps(c, req, disk, place, input, chain, known)
  {
    if IsBusy(place) {
      BusyStepKeeps(c, req, disk, place, input, chain, known);
    } else if place.Prepared? {
      PreparedKeeps(c, req, disk, place.record, input, chain, known);
    } else {
      ReadingKeeps(c, req, disk, place, input, chain, known);
    }
  }

  lemma RenamedIsNamed(c: Codec, disk: Disk, chain: seq<Record>, known: nat, disk': Disk)
    requires Names(c, disk, chain, known) && known < |chain|
    requires Files(disk') == Files(disk) && disk'.current == Some(chain[known].payload)
    ensures Names(c, disk', chain, |chain|)
  {
    SameRecordFiles(c, disk, disk', chain);
  }

  lemma SameFilesKeepOthers(disk: Disk, place: Place, disk': Disk, place': Place)
    requires Files(disk') == Files(disk)
    requires forall name :: !Holds(place, name) && !Holds(place', name)
    ensures KeepsOthers(disk, place, disk', place')
  {
  }

  /** The rename makes the current file name the last record. */
  lemma ReplacingMoves(c: Codec, req: Request, disk: Disk, r: Record, name: string, input: Input, chain: seq<Record>, known: nat)
    requires Names(c, disk, chain, known) && Fits(c, req, disk, chain, known, PointerWritten(r, name))
    ensures var (disk', place') := Step(c, req, disk, PointerWritten(r, name), input);
      Moves(c, req, disk, PointerWritten(r, name), disk', place', chain, known, chain, |chain|)
  {
    var disk' := disk.(current := Some(disk.scratch[name]), scratch := disk.scratch - {name});
    RenamedIsNamed(c, disk, chain, known, disk');
    SameFilesKeepOthers(disk, PointerWritten(r, name), disk', Done(Published(r)));
  }

  lemma ChainGrows(c: Codec, disk: Disk, chain: seq<Record>, r: Record)
    requires NamedChain(c, disk, chain) && FileName(r.id) !in Files(disk)
    requires Readable(c, r) && r.previous == LastLink(c, chain)
    ensures NamedChain(c, WithFile(disk, FileName(r.id), r.payload), chain + [r])
  {
    var longer, after := chain + [r], WithFile(disk, FileName(r.id), r.payload);
    assert longer[|chain|] == r && longer[..|chain|] == chain;
    forall i | 0 <= i < |longer|
      ensures IsStored(c, after, longer[i]) && LinkedAt(c, longer, i) && (i < |chain| ==> longer[i].id != r.id)
    {
      if i < |chain| {
        assert longer[i] == chain[i] && IsStored(c, disk, chain[i]) && LinkedAt(c, chain, i);
        PrefixesAgree(chain, longer, i);
      }
    }
    GrownIsCovered(disk, chain, r);
  }

  lemma GrownIsCovered(disk: Disk, chain: seq<Record>, r: Record)
    requires forall name {:trigger IsNamed(chain, name)} | name in Files(disk) && IsRecordName(name) :: IsNamed(chain, name)
    ensures forall name {:trigger IsNamed(chain + [r], name)} | name in Files(WithFile(disk, FileName(r.id), r.payload)) && IsRecordName(name) ::
      IsNamed(chain + [r], name)
  {
    var longer := chain + [r];
    assert longer[|chain|] == r;
    forall name | name in Files(WithFile(disk, FileName(r.id), r.payload)) && IsRecordName(name)
      ensures IsNamed(longer, name)
    {
      if name in Files(disk) {
        assert IsNamed(chain, name);
        var i :| 0 <= i < |chain| && name == FileName(chain[i].id);
        assert longer[i] == chain[i];
      }
    }
  }

  /** A record that names an earlier record than the last is a second successor of that one. */
  lemma LinkingForks(c: Codec, disk: Disk, chain: seq<Record>, k: nat, r: Record)
    requires NamedChain(c, disk, chain) && FileName(r.id) !in Files(disk) && k < |chain|
    requires Readable(c, r) && r.previous == LastLink(c, chain[..k])
    ensures Forked(c, WithFile(disk, FileName(r.id), r.payload))
  {
    assert IsStored(c, disk, chain[k]) && LinkedAt(c, chain, k);
    assert ForksAt(c, WithFile(disk, FileName(r.id), r.payload), chain[k], r);
  }

  lemma WrittenStep(c: Codec, req: Request, disk: Disk, r: Record, name: string, input: Input)
    requires name in Files(disk) && Files(disk)[name] == r.payload
    ensures Step(c, req, disk, Written(r, name), input) ==
      if FileName(r.id) in Files(disk) then (disk, Collided(name))
      else (WithFile(disk, FileName(r.id), r.payload), LinkedRecord(r, name))
  {
  }

  lemma CollidingMoves(c: Codec, req: Request, disk: Disk, r: Record, name: string, chain: seq<Record>, known: nat)
    requires Names(c, disk, chain, known) && HasTemporary(disk, name)
    ensures Moves(c, req, disk, Written(r, name), disk, Collided(name), chain, known, chain, known)
  {
    assert Keeps(c, req, disk, Written(r, name), disk, Collided(name), chain, known);
    KeepsMoves(c, req, disk, Written(r, name), disk, Collided(name), chain, known);
  }

  lemma SuccessorLinks(c: Codec, req: Request, disk: Disk, chain: seq<Record>, known: nat, r: Record)
    requires Names(c, disk, chain, known) && SucceedsKnown(c, req, chain, known, r) && FileName(r.id) !in Files(disk)
    ensures (known == |chain| && IsSuccessor(c, req, chain, r)) || Forked(c, WithFile(disk, FileName(r.id), r.payload))
  {
    var k :| 0 <= k <= known && IsSuccessor(c, req, chain[..k], r);
    if k < |chain| {
      LinkingForks(c, disk, chain, k, r);
    } else {
      assert chain[..k] == chain;
    }
  }

  /** The exclusive link: the name was taken, or the chain grows by one record, or it forks. */
  lemma LinkingMoves(c: Codec, req: Request, disk: Disk, r: Record, name: string, input: Input, chain: seq<Record>, known: nat)
    requires Names(c, disk, chain, known) && Fits(c, req, disk, chain, known, Written(r, name))
    ensures var (disk', place') := Step(c, req, disk, Written(r, name), input);
      if FileName(r.id) in Files(disk) then Moves(c, req, disk, Written(r, name), disk', place', chain, known, chain, known)
      else
        || Forked(c, disk')
        || (IsSuccessor(c, req, chain, r)
            && Moves(c, req, disk, Written(r, name), disk', place', chain, known, chain + [r], known))
  {
    WrittenStep(c, req, disk, r, name, input);
    if FileName(r.id) in Files(disk) {
      CollidingMoves(c, req, disk, r, name, chain, known);
    } else {
      SuccessorLinks(c, req, disk, chain, known, r);
      if !Forked(c, WithFile(disk, FileName(r.id), r.payload)) {
        LinkedMoves(c, req, disk, r, name, chain, known);
      }
    }
  }

  lemma LinkedMoves(c: Codec, req: Request, disk: Disk, r: Record, name: string, chain: seq<Record>, known: nat)
    requires Names(c, disk, chain, known) && HasTemporary(disk, name) && FileName(r.id) !in Files(disk)
    requires known == |chain| && IsSuccessor(c, req, chain, r)
    ensures Moves(c, req, disk, Written(r, name), WithFile(disk, FileName(r.id), r.payload), LinkedRecord(r, name),
                  chain, known, chain + [r], known)
  {
    var disk' := WithFile(disk, FileName(r.id), r.payload);
    LinkedKeepsOthers(disk, r, name);
    assert Names(c, disk', chain + [r], known) by {
      ChainGrows(c, disk, chain, r);
    }
    assert Fits(c, req, disk', chain + [r], known, LinkedRecord(r, name));
  }

  lemma LinkedKeepsOthers(disk: Disk, r: Record, name: string)
    requires HasTemporary(disk, name)
    ensures KeepsOthers(disk, Written(r, name), WithFile(disk, FileName(r.id), r.payload), LinkedRecord(r, name))
    ensures HasTemporary(WithFile(disk, FileName(r.id), r.payload), name)
  {
    FileNameIsInjective(r.id, r.id);
  }

}
