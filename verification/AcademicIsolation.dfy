/** No statement of an import reaches into another source. */
module AcademicIsolation {
  import opened AcademicTables
  import opened AcademicImport
  import opened AcademicIntegrity
  import opened AcademicMeaning

  lemma UpsertIsElsewhereSame<A>(t: Table<A>, next: int, source: int, job: int, items: seq<Item<A>>)
    ensures SameElsewhere(t, Upsert(t, next, source, job, items), source)
  {
    forall k: Key | k.0 != source
      ensures (k in t <==> k in Upsert(t, next, source, job, items)) && (k in t ==> t[k] == Upsert(t, next, source, job, items)[k])
    {
      UpsertElsewhere(t, next, source, job, items, k);
    }
  }

  lemma UpsertsLeaveOthers(db: Db, job: int, source: int, snapshot: Snapshot)
    ensures OthersUntouched(db, AfterUpserts(db, job, source, snapshot), source)
  {
    var d1 := UpsertTerms(db, job, source, snapshot.terms);
    var d2 := UpsertCourses(d1, job, source, snapshot.courses);
    var d3 := UpsertTeachers(d2, job, source, snapshot.teachers);
    UpsertIsElsewhereSame(db.terms, db.next, source, job, snapshot.terms);
    UpsertIsElsewhereSame(d1.courses, d1.next, source, job, snapshot.courses);
    UpsertIsElsewhereSame(d2.teachers, d2.next, source, job, snapshot.teachers);
    UpsertIsElsewhereSame(d3.offerings, d3.next, source, job, Joined(d3.terms, d3.courses, source, snapshot.offerings));
  }

  lemma OthersUntouchedIsTransitive(a: Db, b: Db, c: Db, source: int)
    requires OthersUntouched(a, b, source) && OthersUntouched(b, c, source)
    ensures OthersUntouched(a, c, source)
  {
  }

  lemma ClearTeachingLeavesOthers(db: Db, source: int)
    requires UniqueIds(db.offerings, db.next)
    ensures OthersUntouched(db, ClearTeaching(db, source), source)
  {
  }

  lemma ClearSchedulesLeavesOthers(db: Db, source: int)
    requires UniqueIds(db.offerings, db.next)
    ensures OthersUntouched(db, ClearSchedules(db, source), source)
  {
  }

  lemma ClearMembersLeavesOthers(db: Db, source: int)
    ensures OthersUntouched(db, ClearMembers(db, source), source)
  {
  }

  lemma InsertTeachingLeavesOthers(db: Db, source: int, rows: seq<(string, string)>)
    requires UniqueIds(db.offerings, db.next)
    ensures OthersUntouched(db, InsertTeaching(db, source, rows), source)
  {
  }

  lemma {:induction false} InsertSlotsLeavesOthers(db: Db, source: int, rows: seq<(string, Slot)>)
    requires UniqueIds(db.offerings, db.next)
    ensures OthersUntouched(db, InsertSlots(db, source, rows), source)
    decreases |rows|
  {
    if rows != [] {
      var k := (source, rows[0].0);
      if k !in db.offerings {
        InsertSlotsLeavesOthers(db, source, rows[1..]);
      } else {
        var id := db.offerings[k].id;
        var db' := db.(schedules := db.schedules[id := SlotsAt(db.schedules, id) + multiset{rows[0].1}]);
        InsertSlotsLeavesOthers(db', source, rows[1..]);
        OthersUntouchedIsTransitive(db, db', InsertSlots(db', source, rows[1..]), source);
      }
    }
  }

  lemma {:induction false} InsertMembersLeavesOthers(db: Db, source: int, job: int, rows: seq<ImportMember>)
    requires InsertMembers(db, source, job, rows).Some?
    ensures OthersUntouched(db, InsertMembers(db, source, job, rows).value, source)
    decreases |rows|
  {
    if rows != [] {
      if (source, rows[0].offering) !in db.offerings {
        InsertMembersLeavesOthers(db, source, job, rows[1..]);
      } else {
        var db' := db.(members := db.members[MemberAt(db, source, rows[0]) := Member(job, rows[0].student)]);
        InsertMembersLeavesOthers(db', source, job, rows[1..]);
        OthersUntouchedIsTransitive(db, db', InsertMembers(db', source, job, rows[1..]).value, source);
      }
    }
  }

  lemma DeleteOfferingsLeavesOthers(db: Db, source: int, keys: set<Key>)
    requires UniqueIds(db.offerings, db.next) && MembersRefer(db.members, db.offerings)
    requires forall k | k in keys :: k.0 == source
    ensures OthersUntouched(db, DeleteOfferings(db, keys), source)
  {
  }

  lemma TermsCascadeInSource(db: Db, source: int, keys: set<Key>)
    requires UniqueIds(db.terms, db.next) && OfferingsRefer(db.offerings, db.terms, db.courses)
    requires forall k | k in keys :: k.0 == source
    ensures forall k | k in db.offerings && db.offerings[k].data.term in Ids(db.terms, keys) :: k.0 == source
  {
  }

  lemma CoursesCascadeInSource(db: Db, source: int, keys: set<Key>)
    requires UniqueIds(db.courses, db.next) && OfferingsRefer(db.offerings, db.terms, db.courses)
    requires forall k | k in keys :: k.0 == source
    ensures forall k | k in db.offerings && db.offerings[k].data.course in Ids(db.courses, keys) :: k.0 == source
  {
  }

  lemma DeleteTermsLeavesOthers(db: Db, source: int, keys: set<Key>)
    requires Integrity(db) && forall k | k in keys :: k.0 == source
    ensures OthersUntouched(db, DeleteTerms(db, keys), source)
  {
    var d := db.(terms := db.terms - keys);
    var lost := set k | k in db.offerings && db.offerings[k].data.term in Ids(db.terms, keys);
    TermsCascadeInSource(db, source, keys);
    assert OthersUntouched(db, d, source);
    DeleteOfferingsLeavesOthers(d, source, lost);
    OthersUntouchedIsTransitive(db, d, DeleteOfferings(d, lost), source);
  }

  lemma DeleteCoursesLeavesOthers(db: Db, source: int, keys: set<Key>)
    requires Integrity(db) && forall k | k in keys :: k.0 == source
    ensures OthersUntouched(db, DeleteCourses(db, keys), source)
  {
    var d := db.(courses := db.courses - keys);
    var lost := set k | k in db.offerings && db.offerings[k].data.course in Ids(db.courses, keys);
    CoursesCascadeInSource(db, source, keys);
    assert OthersUntouched(db, d, source);
    DeleteOfferingsLeavesOthers(d, source, lost);
    OthersUntouchedIsTransitive(db, d, DeleteOfferings(d, lost), source);
  }

  lemma DeleteTeachersLeavesOthers(db: Db, source: int, keys: set<Key>)
    requires Integrity(db) && forall k | k in keys :: k.0 == source
    ensures OthersUntouched(db, DeleteTeachers(db, keys), source)
  {
    var gone := Ids(db.teachers, keys);
    forall k, t | k in db.offerings && k.0 != source && (db.offerings[k].id, t) in db.teaching
      ensures t !in gone
    {
      var s :| HasId(db.offerings, s, db.offerings[k].id) && HasId(db.teachers, s, t);
    }
  }

  lemma RelationsLeaveOthers(db: Db, source: int, snapshot: Snapshot)
    requires Integrity(db)
    ensures OthersUntouched(db, AfterRelations(db, source, snapshot), source)
  {
    var d1 := ClearTeaching(db, source);
    var d2 := ClearSchedules(d1, source);
    var d3 := InsertTeaching(d2, source, TeacherRows(snapshot.offerings));
    var d4 := InsertSlots(d3, source, SlotRows(snapshot.offerings));
    ClearTeachingLeavesOthers(db, source);
    ClearSchedulesLeavesOthers(d1, source);
    InsertTeachingLeavesOthers(d2, source, TeacherRows(snapshot.offerings));
    InsertSlotsLeavesOthers(d3, source, SlotRows(snapshot.offerings));
    OthersUntouchedIsTransitive(db, d1, d2, source);
    OthersUntouchedIsTransitive(db, d2, d3, source);
    OthersUntouchedIsTransitive(db, d3, d4, source);
  }

  lemma PruningLeavesOthers(db: Db, source: int, snapshot: Snapshot)
    requires Integrity(db)
    ensures OthersUntouched(db, AfterPruning(db, source, snapshot), source)
  {
    var k0 := Stale(db.offerings, source, NonEmpty(OfferingIdsOf(snapshot.offerings)));
    var d1 := DeleteOfferings(db, k0);
    var k1 := Stale(d1.terms, source, NonEmpty(IdsOf(snapshot.terms)));
    var d2 := DeleteTerms(d1, k1);
    var k2 := Stale(d2.courses, source, NonEmpty(IdsOf(snapshot.courses)));
    var d3 := DeleteCourses(d2, k2);
    var k3 := Stale(d3.teachers, source, NonEmpty(IdsOf(snapshot.teachers)));
    DeleteOfferingsKeepsIntegrity(db, k0);
    DeleteTermsKeepsIntegrity(d1, k1);
    DeleteCoursesKeepsIntegrity(d2, k2);
    DeleteOfferingsLeavesOthers(db, source, k0);
    DeleteTermsLeavesOthers(d1, source, k1);
    DeleteCoursesLeavesOthers(d2, source, k2);
    DeleteTeachersLeavesOthers(d3, source, k3);
    OthersUntouchedIsTransitive(db, d1, d2, source);
    OthersUntouchedIsTransitive(db, d2, d3, source);
    OthersUntouchedIsTransitive(db, d3, DeleteTeachers(d3, k3), source);
  }

  /** An import touches no row of another source, whatever identifiers it carries. */
  lemma ImportLeavesOthers(db: Db, job: int, source: int, snapshot: Snapshot)
    requires Integrity(db) && ValidSnapshot(snapshot)
    ensures Imported(db, job, source, snapshot).Some? ==> OthersUntouched(db, Imported(db, job, source, snapshot).value, source)
  {
    if Imported(db, job, source, snapshot).Some? {
      var d1 := AfterUpserts(db, job, source, snapshot);
      var d2 := AfterRelations(d1, source, snapshot);
      var d3 := ClearMembers(d2, source);
      var d4 := AfterMembers(d2, job, source, snapshot).value;
      AfterUpsertsKeepsIntegrity(db, job, source, snapshot);
      AfterRelationsKeepsIntegrity(d1, source, snapshot);
      ClearsKeepIntegrity(d2, source);
      InsertMembersKeepsIntegrity(d3, source, job, snapshot.members);
      UpsertsLeaveOthers(db, job, source, snapshot);
      RelationsLeaveOthers(d1, source, snapshot);
      ClearMembersLeavesOthers(d2, source);
      InsertMembersLeavesOthers(d3, source, job, snapshot.members);
      PruningLeavesOthers(d4, source, snapshot);
      OthersUntouchedIsTransitive(db, d1, d2, source);
      OthersUntouchedIsTransitive(db, d2, d3, source);
      OthersUntouchedIsTransitive(db, d3, d4, source);
      OthersUntouchedIsTransitive(db, d4, AfterPruning(d4, source, snapshot), source);
    }
  }
}
