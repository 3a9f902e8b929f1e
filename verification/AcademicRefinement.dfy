/** The import refines "clear the source, insert the snapshot", keeping surrogate keys. */
module AcademicRefinement {
  import opened Options
  import opened AcademicTables
  import opened AcademicImport
  import opened AcademicIntegrity
  import opened AcademicMeaning

  predicate NoEmptyId<A>(items: seq<Item<A>>) {
    forall i | 0 <= i < |items| :: items[i].externalId != ""
  }

  predicate NoEmptyOfferingId(offerings: seq<ImportOffering>) {
    forall i | 0 <= i < |offerings| :: offerings[i].externalId != ""
  }

  predicate NoEmptyIds(snapshot: Snapshot) {
    && NoEmptyId(snapshot.terms) && NoEmptyId(snapshot.courses) && NoEmptyId(snapshot.teachers)
    && NoEmptyOfferingId(snapshot.offerings)
  }

  // ---- the rows written ----

  ghost predicate Loaded<A>(t: Table<A>, source: int, job: int, items: seq<Item<A>>) {
    forall i | 0 <= i < |items| ::
      var k := (source, items[i].externalId);
      k in t && t[k].data == items[i].data && t[k].job == job
  }

  lemma UpsertLoads<A>(t: Table<A>, next: int, source: int, job: int, items: seq<Item<A>>)
    requires DistinctIds(items)
    ensures Loaded(Upsert(t, next, source, job, items), source, job, items)
  {
    forall i | 0 <= i < |items|
      ensures var k, r := (source, items[i].externalId), Upsert(t, next, source, job, items);
        k in r && r[k].data == items[i].data && r[k].job == job
    {
      UpsertAt(t, next, source, job, items, i);
    }
  }

  ghost predicate LoadedAll(db: Db, source: int, job: int, snapshot: Snapshot) {
    && Loaded(db.terms, source, job, snapshot.terms)
    && Loaded(db.courses, source, job, snapshot.courses)
    && Loaded(db.teachers, source, job, snapshot.teachers)
    && (forall i | 0 <= i < |snapshot.offerings| :: RepresentsOffering(db, source, job, snapshot.offerings[i]))
  }

  lemma UpsertsLoadAll(db: Db, job: int, source: int, snapshot: Snapshot)
    requires ValidRows(snapshot)
    ensures LoadedAll(AfterUpserts(db, job, source, snapshot), source, job, snapshot)
  {
    var d1 := UpsertTerms(db, job, source, snapshot.terms);
    var d2 := UpsertCourses(d1, job, source, snapshot.courses);
    var d3 := UpsertTeachers(d2, job, source, snapshot.teachers);
    UpsertLoads(db.terms, db.next, source, job, snapshot.terms);
    UpsertLoads(d1.courses, d1.next, source, job, snapshot.courses);
    UpsertLoads(d2.teachers, d2.next, source, job, snapshot.teachers);
    UpsertKnows(db.terms, db.next, source, job, snapshot.terms);
    UpsertKnows(d1.courses, d1.next, source, job, snapshot.courses);
    var items := Joined(d3.terms, d3.courses, source, snapshot.offerings);
    JoinedAll(d3.terms, d3.courses, source, snapshot.offerings);
    forall i, j | 0 <= i < j < |items| ensures items[i].externalId != items[j].externalId {
      assert snapshot.offerings[i].externalId != snapshot.offerings[j].externalId;
    }
    UpsertLoads(d3.offerings, d3.next, source, job, items);
    forall i | 0 <= i < |snapshot.offerings|
      ensures RepresentsOffering(AfterUpserts(db, job, source, snapshot), source, job, snapshot.offerings[i])
    {
      assert snapshot.offerings[i] in snapshot.offerings && items[i].externalId == snapshot.offerings[i].externalId;
    }
  }

  // ---- the relations written ----

  lemma {:induction false} TeacherRowsMean(offerings: seq<ImportOffering>, row: (string, string))
    ensures row in TeacherRows(offerings) <==> Teaches(offerings, row.0, row.1)
  {
    if offerings != [] {
      var o, rest := offerings[0], offerings[1..];
      TeacherRowsMean(rest, row);
      var head := TeacherRowsOf(o.externalId, o.teachers);
      if o.externalId == row.0 && row.1 in o.teachers {
        var j :| 0 <= j < |o.teachers| && o.teachers[j] == row.1;
        assert head[j] == row;
        assert offerings[0].externalId == row.0;
      }
      if Teaches(rest, row.0, row.1) {
        var i :| 0 <= i < |rest| && rest[i].externalId == row.0 && row.1 in rest[i].teachers;
        assert offerings[i + 1] == rest[i];
      }
      if Teaches(offerings, row.0, row.1) {
        var i :| 0 <= i < |offerings| && offerings[i].externalId == row.0 && row.1 in offerings[i].teachers;
        assert i > 0 ==> rest[i - 1] == offerings[i];
      }
    }
  }

  lemma {:induction false} InsertedTeachingRepresents(db: Db, source: int, offerings: seq<ImportOffering>)
    requires UniqueIds(db.offerings, db.next) && UniqueIds(db.teachers, db.next)
    requires forall k, p | k in db.offerings && k.0 == source && p in db.teaching :: p.0 != db.offerings[k].id
    ensures RepresentsTeaching(InsertTeaching(db, source, TeacherRows(offerings)), source, offerings)
  {
    var r := InsertTeaching(db, source, TeacherRows(offerings));
    forall o, t | (source, o) in r.offerings && (source, t) in r.teachers
      ensures (r.offerings[(source, o)].id, r.teachers[(source, t)].id) in r.teaching <==> Teaches(offerings, o, t)
    {
      var p := (r.offerings[(source, o)].id, r.teachers[(source, t)].id);
      if p in r.teaching {
        var row :| row in TeacherRows(offerings) && (source, row.0) in db.offerings && (source, row.1) in db.teachers
          && p == (db.offerings[(source, row.0)].id, db.teachers[(source, row.1)].id);
        assert (source, row.0) == (source, o) && (source, row.1) == (source, t);
        TeacherRowsMean(offerings, row);
      }
      if Teaches(offerings, o, t) {
        TeacherRowsMean(offerings, (o, t));
        assert (o, t) in TeacherRows(offerings) && (o, t).0 == o && (o, t).1 == t;
      }
    }
  }

  /** The slots a list of rows gives to one offering. */
  ghost function SlotsFor(rows: seq<(string, Slot)>, id: string): multiset<Slot> {
    if rows == [] then multiset{}
    else (if rows[0].0 == id then multiset{rows[0].1} else multiset{}) + SlotsFor(rows[1..], id)
  }

  lemma {:induction false} SlotsForConcat(a: seq<(string, Slot)>, b: seq<(string, Slot)>, id: string)
    ensures SlotsFor(a + b, id) == SlotsFor(a, id) + SlotsFor(b, id)
  {
    if a == [] {
      assert a + b == b;
    } else {
      assert (a + b)[1..] == a[1..] + b;
      SlotsForConcat(a[1..], b, id);
    }
  }

  lemma {:induction false} SlotsForOne(offering: string, slots: seq<Slot>, id: string)
    ensures SlotsFor(SlotRowsOf(offering, slots), id) == if offering == id then multiset(slots) else multiset{}
  {
    if slots != [] {
      assert SlotRowsOf(offering, slots)[1..] == SlotRowsOf(offering, slots[1..]);
      SlotsForOne(offering, slots[1..], id);
      assert slots == [slots[0]] + slots[1..];
    }
  }

  lemma SlotsForHead(offerings: seq<ImportOffering>, id: string)
    requires offerings != []
    ensures SlotsFor(SlotRows(offerings), id) ==
      (if offerings[0].externalId == id then multiset(offerings[0].slots) else multiset{}) + SlotsFor(SlotRows(offerings[1..]), id)
  {
    var o := offerings[0];
    SlotsForOne(o.externalId, o.slots, id);
    SlotsForConcat(SlotRowsOf(o.externalId, o.slots), SlotRows(offerings[1..]), id);
  }

  lemma {:induction false} SlotsForUnknown(offerings: seq<ImportOffering>, id: string)
    requires !KnowsOffering(offerings, id)
    ensures SlotsFor(SlotRows(offerings), id) == multiset{}
  {
    if offerings != [] {
      assert offerings[0].externalId != id;
      assert forall i | 0 <= i < |offerings[1..]| :: offerings[1..][i] == offerings[i + 1];
      SlotsForUnknown(offerings[1..], id);
      SlotsForHead(offerings, id);
    }
  }

  lemma TailIsDistinct(offerings: seq<ImportOffering>, rest: seq<ImportOffering>)
    requires offerings != [] && rest == offerings[1..] && DistinctOfferings(offerings)
    ensures DistinctOfferings(rest) && !KnowsOffering(rest, offerings[0].externalId)
  {
    assert forall j | 0 <= j < |rest| :: rest[j] == offerings[j + 1];
  }

  lemma {:induction false} SlotsForKnown(offerings: seq<ImportOffering>, i: nat)
    requires DistinctOfferings(offerings) && i < |offerings|
    ensures SlotsFor(SlotRows(offerings), offerings[i].externalId) == multiset(offerings[i].slots)
  {
    var rest, id := offerings[1..], offerings[i].externalId;
    TailIsDistinct(offerings, rest);
    SlotsForHead(offerings, id);
    if i == 0 {
      SlotsForUnknown(rest, id);
    } else {
      assert rest[i - 1] == offerings[i] && offerings[0].externalId != id;
      SlotsForKnown(rest, i - 1);
    }
  }

  /** One row adds its slot to its own offering and to no other. */
  lemma OneSlotAt(db: Db, k0: Key, k: Key, slot: Slot)
    requires UniqueIds(db.offerings, db.next) && k in db.offerings && k0 in db.offerings
    ensures var id := db.offerings[k0].id;
      SlotsAt(db.schedules[id := SlotsAt(db.schedules, id) + multiset{slot}], db.offerings[k].id)
        == SlotsAt(db.schedules, db.offerings[k].id) + if k0 == k then multiset{slot} else multiset{}
  {
    assert k0 != k ==> db.offerings[k0].id != db.offerings[k].id;
  }

  lemma {:induction false} InsertSlotsAt(db: Db, source: int, rows: seq<(string, Slot)>, k: Key)
    requires UniqueIds(db.offerings, db.next) && k in db.offerings && k.0 == source
    ensures SlotsAt(InsertSlots(db, source, rows).schedules, db.offerings[k].id)
      == SlotsAt(db.schedules, db.offerings[k].id) + SlotsFor(rows, k.1)
    decreases |rows|
  {
    if rows != [] {
      var k0 := (source, rows[0].0);
      if k0 !in db.offerings {
        InsertSlotsAt(db, source, rows[1..], k);
      } else {
        var id := db.offerings[k0].id;
        InsertSlotsAt(db.(schedules := db.schedules[id := SlotsAt(db.schedules, id) + multiset{rows[0].1}]), source, rows[1..], k);
        OneSlotAt(db, k0, k, rows[0].1);
      }
    }
  }

  /** Only offerings of the rows gain schedules. */
  lemma {:induction false} InsertSlotsKeys(db: Db, source: int, rows: seq<(string, Slot)>, o: int)
    requires o in InsertSlots(db, source, rows).schedules
    ensures o in db.schedules || exists i :: 0 <= i < |rows| && (source, rows[i].0) in db.offerings && db.offerings[(source, rows[i].0)].id == o
    decreases |rows|
  {
    if rows != [] {
      var k := (source, rows[0].0);
      var rest := rows[1..];
      assert forall i | 0 <= i < |rest| :: rest[i] == rows[i + 1];
      if k !in db.offerings {
        InsertSlotsKeys(db, source, rest, o);
      } else {
        var id := db.offerings[k].id;
        assert rows[0].0 == k.1;
        InsertSlotsKeys(db.(schedules := db.schedules[id := SlotsAt(db.schedules, id) + multiset{rows[0].1}]), source, rest, o);
      }
    }
  }

  /** The members after a successful insert. */
  lemma {:induction false} InsertMembersEffect(db: Db, source: int, job: int, rows: seq<ImportMember>)
    requires InsertMembers(db, source, job, rows).Some?
    requires forall m | m in rows :: (source, m.offering) in db.offerings
    ensures var r := InsertMembers(db, source, job, rows).value;
      && r == db.(members := r.members)
      && (forall k | k in db.members :: k in r.members && r.members[k] == db.members[k])
      && (forall i | 0 <= i < |rows| ::
            MemberAt(db, source, rows[i]) in r.members && r.members[MemberAt(db, source, rows[i])] == Member(job, rows[i].student))
      && (forall k | k in r.members && k !in db.members :: exists i :: 0 <= i < |rows| && k == MemberAt(db, source, rows[i]))
    decreases |rows|
  {
    if rows != [] {
      var k0 := MemberAt(db, source, rows[0]);
      var db' := db.(members := db.members[k0 := Member(job, rows[0].student)]);
      var rest := rows[1..];
      InsertMembersEffect(db', source, job, rest);
      var r := InsertMembers(db, source, job, rows).value;
      assert forall i | 0 <= i < |rest| :: rest[i] == rows[i + 1];
      forall i | 0 <= i < |rows|
        ensures MemberAt(db, source, rows[i]) in r.members && r.members[MemberAt(db, source, rows[i])] == Member(job, rows[i].student)
      {
        assert i > 0 ==> MemberAt(db', source, rest[i - 1]) in r.members;
      }
      forall k | k in r.members && k !in db.members
        ensures exists i :: 0 <= i < |rows| && k == MemberAt(db, source, rows[i])
      {
        if k != k0 {
          var i :| 0 <= i < |rest| && k == MemberAt(db', source, rest[i]);
          assert k == MemberAt(db, source, rows[i + 1]);
        } else {
          assert k == MemberAt(db, source, rows[0]);
        }
      }
    }
  }

  // ---- before pruning ----

  /** The database just before pruning: everything of the snapshot is written, and no relation of the
      source refers to an offering the snapshot does not have. */
  ghost predicate Related(db: Db, source: int, job: int, snapshot: Snapshot) {
    && LoadedAll(db, source, job, snapshot)
    && RepresentsTeaching(db, source, snapshot.offerings)
    && RepresentsSlots(db, source, snapshot.offerings)
    && RepresentsMembers(db, source, job, snapshot.members)
    && (forall p | p in db.teaching :: Live(db, source, snapshot, p.0))
    && (forall o | o in db.schedules :: Live(db, source, snapshot, o))
    && (forall m | m in db.members :: Live(db, source, snapshot, m.offering))
  }

  ghost predicate Live(db: Db, source: int, snapshot: Snapshot, id: int) {
    exists k :: k in db.offerings && db.offerings[k].id == id && (k.0 != source || KnowsOffering(snapshot.offerings, k.1))
  }

  lemma ElsewhereIsLive(db: Db, source: int, snapshot: Snapshot, s: int, id: int)
    requires HasId(db.offerings, s, id) && s != source
    ensures Live(db, source, snapshot, id)
  {
  }

  lemma ClearedRelations(db: Db, source: int, snapshot: Snapshot)
    requires Integrity(db)
    ensures var d := ClearSchedules(ClearTeaching(db, source), source);
      && d == db.(teaching := d.teaching, schedules := d.schedules)
      && (forall p | p in d.teaching :: Live(db, source, snapshot, p.0))
      && (forall o | o in d.schedules :: Live(db, source, snapshot, o))
      && (forall k, p | k in db.offerings && k.0 == source && p in d.teaching :: p.0 != db.offerings[k].id)
      && (forall k | k in db.offerings && k.0 == source :: db.offerings[k].id !in d.schedules)
  {
    var d := ClearSchedules(ClearTeaching(db, source), source);
    forall p | p in d.teaching
      ensures Live(db, source, snapshot, p.0)
    {
      var s :| HasId(db.offerings, s, p.0) && HasId(db.teachers, s, p.1);
      ElsewhereIsLive(db, source, snapshot, s, p.0);
    }
    forall o | o in d.schedules
      ensures Live(db, source, snapshot, o)
    {
      var s :| HasId(db.offerings, s, o);
      ElsewhereIsLive(db, source, snapshot, s, o);
    }
  }

  lemma KnownIsLive(db: Db, source: int, snapshot: Snapshot, id: string)
    requires (source, id) in db.offerings && KnowsOffering(snapshot.offerings, id)
    ensures Live(db, source, snapshot, db.offerings[(source, id)].id)
  {
  }

  lemma TeachingIsLive(db: Db, source: int, snapshot: Snapshot)
    requires forall p | p in db.teaching :: Live(db, source, snapshot, p.0)
    ensures forall p | p in InsertTeaching(db, source, TeacherRows(snapshot.offerings)).teaching :: Live(db, source, snapshot, p.0)
  {
    forall p | p in InsertTeaching(db, source, TeacherRows(snapshot.offerings)).teaching
      ensures Live(db, source, snapshot, p.0)
    {
      if p !in db.teaching {
        var row :| row in TeacherRows(snapshot.offerings) && (source, row.0) in db.offerings && (source, row.1) in db.teachers
          && p == (db.offerings[(source, row.0)].id, db.teachers[(source, row.1)].id);
        TeacherRowsMean(snapshot.offerings, row);
        KnownIsLive(db, source, snapshot, row.0);
      }
    }
  }

  lemma SlotsAreLive(db: Db, source: int, snapshot: Snapshot)
    requires forall o | o in db.schedules :: Live(db, source, snapshot, o)
    ensures forall o | o in InsertSlots(db, source, SlotRows(snapshot.offerings)).schedules :: Live(db, source, snapshot, o)
  {
    var rows := SlotRows(snapshot.offerings);
    forall o | o in InsertSlots(db, source, rows).schedules
      ensures Live(db, source, snapshot, o)
    {
      InsertSlotsKeys(db, source, rows, o);
      if o !in db.schedules {
        var i :| 0 <= i < |rows| && (source, rows[i].0) in db.offerings && db.offerings[(source, rows[i].0)].id == o;
        SlotRowsKnown(snapshot.offerings, rows[i]);
        KnownIsLive(db, source, snapshot, rows[i].0);
      }
    }
  }

  lemma {:induction false} SlotRowsKnown(offerings: seq<ImportOffering>, row: (string, Slot))
    requires row in SlotRows(offerings)
    ensures KnowsOffering(offerings, row.0)
  {
    var rest := offerings[1..];
    if row in SlotRowsOf(offerings[0].externalId, offerings[0].slots) {
      assert offerings[0].externalId == row.0;
    } else {
      SlotRowsKnown(rest, row);
      var i :| 0 <= i < |rest| && rest[i].externalId == row.0;
      assert offerings[i + 1].externalId == row.0;
    }
  }

  /** Clearing, then inserting the teachers. */
  lemma TeachingRepresents(db: Db, source: int, snapshot: Snapshot)
    requires Integrity(db)
    ensures var r := InsertTeaching(ClearSchedules(ClearTeaching(db, source), source), source, TeacherRows(snapshot.offerings));
      && r == db.(teaching := r.teaching, schedules := r.schedules)
      && RepresentsTeaching(r, source, snapshot.offerings)
      && (forall p | p in r.teaching :: Live(db, source, snapshot, p.0))
      && (forall o | o in r.schedules :: Live(db, source, snapshot, o))
      && (forall k | k in r.offerings && k.0 == source :: r.offerings[k].id !in r.schedules)
  {
    var d := ClearSchedules(ClearTeaching(db, source), source);
    ClearedRelations(db, source, snapshot);
    InsertedTeachingRepresents(d, source, snapshot.offerings);
    LiveFollowsOfferings(db, d, source, snapshot);
    TeachingIsLive(d, source, snapshot);
  }

  /** Inserting the slots where none were left. */
  lemma SlotsRepresent(db: Db, source: int, snapshot: Snapshot)
    requires UniqueIds(db.offerings, db.next) && DistinctOfferings(snapshot.offerings)
    requires forall k | k in db.offerings && k.0 == source :: db.offerings[k].id !in db.schedules
    requires InsertSlots(db, source, SlotRows(snapshot.offerings)).offerings == db.offerings
    ensures RepresentsSlots(InsertSlots(db, source, SlotRows(snapshot.offerings)), source, snapshot.offerings)
  {
    var rows := SlotRows(snapshot.offerings);
    forall i | 0 <= i < |snapshot.offerings| && (source, snapshot.offerings[i].externalId) in db.offerings
      ensures SlotsAt(InsertSlots(db, source, rows).schedules, db.offerings[(source, snapshot.offerings[i].externalId)].id)
        == multiset(snapshot.offerings[i].slots)
    {
      InsertSlotsAt(db, source, rows, (source, snapshot.offerings[i].externalId));
      SlotsForKnown(snapshot.offerings, i);
    }
  }

  /** The relation part of Related, after the two inserts. */
  lemma RelationsRepresent(db: Db, source: int, snapshot: Snapshot)
    requires Integrity(db) && ValidRows(snapshot)
    ensures var r := AfterRelations(db, source, snapshot);
      && r == db.(teaching := r.teaching, schedules := r.schedules)
      && RepresentsTeaching(r, source, snapshot.offerings) && RepresentsSlots(r, source, snapshot.offerings)
      && (forall p | p in r.teaching :: Live(db, source, snapshot, p.0))
      && (forall o | o in r.schedules :: Live(db, source, snapshot, o))
  {
    var d := InsertTeaching(ClearSchedules(ClearTeaching(db, source), source), source, TeacherRows(snapshot.offerings));
    TeachingRepresents(db, source, snapshot);
    assert UniqueIds(d.offerings, d.next);
    InsertSlotsOnlySchedules(d, source, SlotRows(snapshot.offerings));
    SlotsRepresent(d, source, snapshot);
    LiveFollowsOfferings(db, d, source, snapshot);
    SlotsAreLive(d, source, snapshot);
  }

  lemma LiveFollowsOfferings(a: Db, b: Db, source: int, snapshot: Snapshot)
    requires a.offerings == b.offerings
    ensures forall id :: Live(a, source, snapshot, id) <==> Live(b, source, snapshot, id)
  {
  }

  lemma MembersRepresent(db: Db, job: int, source: int, snapshot: Snapshot)
    requires MembersRefer(db.members, db.offerings) && ValidMembers(snapshot)
    requires forall id | KnowsOffering(snapshot.offerings, id) :: (source, id) in db.offerings
    requires AfterMembers(db, job, source, snapshot).Some?
    ensures var r := AfterMembers(db, job, source, snapshot).value;
      && r == db.(members := r.members)
      && RepresentsMembers(r, source, job, snapshot.members)
      && (forall m | m in r.members :: Live(db, source, snapshot, m.offering))
  {
    var d := ClearMembers(db, source);
    var rows := snapshot.members;
    InsertMembersEffect(d, source, job, rows);
    var r := InsertMembers(d, source, job, rows).value;
    forall i | 0 <= i < |rows|
      ensures HasMember(r, source, job, rows[i])
    {
      assert IsMember(r, source, rows[i], MemberAt(d, source, rows[i]));
    }
    forall k | k in r.members && k.source == source
      ensures exists i :: 0 <= i < |rows| && IsMember(r, source, rows[i], k)
    {
      var i :| 0 <= i < |rows| && k == MemberAt(d, source, rows[i]);
      assert IsMember(r, source, rows[i], k);
    }
    forall m | m in r.members
      ensures Live(db, source, snapshot, m.offering)
    {
      if m in d.members {
        ElsewhereIsLive(db, source, snapshot, m.source, m.offering);
      } else {
        var i :| 0 <= i < |rows| && m == MemberAt(d, source, rows[i]);
        assert rows[i] in rows;
        KnownIsLive(db, source, snapshot, rows[i].offering);
      }
    }
  }

  function BeforePruning(db: Db, job: int, source: int, snapshot: Snapshot): Option<Db> {
    AfterMembers(AfterRelations(AfterUpserts(db, job, source, snapshot), source, snapshot), job, source, snapshot)
  }

  lemma BeforePruningIsRelated(db: Db, job: int, source: int, snapshot: Snapshot)
    requires Integrity(db) && ValidSnapshot(snapshot) && BeforePruning(db, job, source, snapshot).Some?
    ensures Related(BeforePruning(db, job, source, snapshot).value, source, job, snapshot)
    ensures Integrity(BeforePruning(db, job, source, snapshot).value)
  {
    var d1 := AfterUpserts(db, job, source, snapshot);
    var d2 := AfterRelations(d1, source, snapshot);
    var d3 := BeforePruning(db, job, source, snapshot).value;
    AfterUpsertsKeepsIntegrity(db, job, source, snapshot);
    UpsertsLoadAll(db, job, source, snapshot);
    RelationsRepresent(d1, source, snapshot);
    AfterRelationsKeepsIntegrity(d1, source, snapshot);
    OfferingsKnown(d1, source, job, snapshot);
    MembersRepresent(d2, job, source, snapshot);
    ClearsKeepIntegrity(d2, source);
    InsertMembersKeepsIntegrity(ClearMembers(d2, source), source, job, snapshot.members);
    LiveFollowsOfferings(d1, d3, source, snapshot);
    LiveFollowsOfferings(d2, d3, source, snapshot);
    RelatedFollows(d1, d2, d3, source, job, snapshot);
  }

  lemma OfferingsKnown(db: Db, source: int, job: int, snapshot: Snapshot)
    requires LoadedAll(db, source, job, snapshot)
    ensures forall id | KnowsOffering(snapshot.offerings, id) :: (source, id) in db.offerings
  {
  }

  lemma RelatedFollows(d1: Db, d2: Db, d3: Db, source: int, job: int, snapshot: Snapshot)
    requires LoadedAll(d1, source, job, snapshot)
    requires d2 == d1.(teaching := d2.teaching, schedules := d2.schedules) && d3 == d2.(members := d3.members)
    requires RepresentsTeaching(d2, source, snapshot.offerings) && RepresentsSlots(d2, source, snapshot.offerings)
    ensures LoadedAll(d3, source, job, snapshot)
    ensures RepresentsTeaching(d3, source, snapshot.offerings) && RepresentsSlots(d3, source, snapshot.offerings)
  {
  }
}
