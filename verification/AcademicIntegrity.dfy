/** Referential integrity after every single statement of the import. */
module AcademicIntegrity {
  import opened AcademicTables
  import opened AcademicImport

  lemma UpsertTermsKeepsIntegrity(db: Db, job: int, source: int, items: seq<Item<Attributes>>)
    requires Integrity(db)
    ensures Integrity(UpsertTerms(db, job, source, items))
  {
    UpsertUniqueIds(db.terms, db.next, source, job, items);
    KeptIdsStillFound(db.terms, UpsertTerms(db, job, source, items).terms);
  }

  lemma UpsertCoursesKeepsIntegrity(db: Db, job: int, source: int, items: seq<Item<Attributes>>)
    requires Integrity(db)
    ensures Integrity(UpsertCourses(db, job, source, items))
  {
    UpsertUniqueIds(db.courses, db.next, source, job, items);
    KeptIdsStillFound(db.courses, UpsertCourses(db, job, source, items).courses);
  }

  lemma TeachingStillRefers(db: Db, offerings: Table<Offering>, teachers: Table<Attributes>)
    requires TeachingRefers(db.teaching, db.offerings, db.teachers)
    requires forall s, id | HasId(db.offerings, s, id) :: HasId(offerings, s, id)
    requires forall s, id | HasId(db.teachers, s, id) :: HasId(teachers, s, id)
    ensures TeachingRefers(db.teaching, offerings, teachers)
  {
  }

  lemma UpsertTeachersKeepsIntegrity(db: Db, job: int, source: int, items: seq<Item<Attributes>>)
    requires Integrity(db)
    ensures Integrity(UpsertTeachers(db, job, source, items))
  {
    UpsertUniqueIds(db.teachers, db.next, source, job, items);
    var teachers := UpsertTeachers(db, job, source, items).teachers;
    KeptIdsStillFound(db.teachers, teachers);
    TeachingStillRefers(db, db.offerings, teachers);
  }

  ghost predicate RefersKnown(db: Db, source: int, offerings: seq<ImportOffering>) {
    forall o | o in offerings :: (source, o.term) in db.terms && (source, o.course) in db.courses
  }

  /** Every offering row after the upsert points at a term and a course of its own source. */
  lemma UpsertedOfferingsRefer(db: Db, job: int, source: int, offerings: seq<ImportOffering>)
    requires OfferingsRefer(db.offerings, db.terms, db.courses)
    requires RefersKnown(db, source, offerings) && DistinctOfferings(offerings)
    ensures OfferingsRefer(UpsertOfferings(db, job, source, offerings).offerings, db.terms, db.courses)
  {
    var items := Joined(db.terms, db.courses, source, offerings);
    JoinedAll(db.terms, db.courses, source, offerings);
    var r := UpsertOfferings(db, job, source, offerings).offerings;
    forall k | k in r
      ensures HasId(db.terms, k.0, r[k].data.term) && HasId(db.courses, k.0, r[k].data.course)
    {
      if i :| k.0 == source && 0 <= i < |items| && items[i].externalId == k.1 {
        UpsertAt(db.offerings, db.next, source, job, items, i);
        var o := offerings[i];
        assert o in offerings && db.terms[(source, o.term)].id == r[k].data.term;
        assert db.courses[(source, o.course)].id == r[k].data.course;
      } else {
        UpsertElsewhere(db.offerings, db.next, source, job, items, k);
      }
    }
  }

  lemma UpsertOfferingsKeepsIntegrity(db: Db, job: int, source: int, offerings: seq<ImportOffering>)
    requires Integrity(db) && RefersKnown(db, source, offerings) && DistinctOfferings(offerings)
    ensures Integrity(UpsertOfferings(db, job, source, offerings))
  {
    var items := Joined(db.terms, db.courses, source, offerings);
    UpsertUniqueIds(db.offerings, db.next, source, job, items);
    var r := UpsertOfferings(db, job, source, offerings).offerings;
    KeptIdsStillFound(db.offerings, r);
    UpsertedOfferingsRefer(db, job, source, offerings);
    TeachingStillRefers(db, r, db.teachers);
    forall o | o in db.schedules
      ensures exists s :: HasId(r, s, o)
    {
      var s :| HasId(db.offerings, s, o);
      assert HasId(r, s, o);
    }
  }

  lemma ClearsKeepIntegrity(db: Db, source: int)
    requires Integrity(db)
    ensures Integrity(ClearTeaching(db, source))
    ensures Integrity(ClearSchedules(db, source))
    ensures Integrity(ClearMembers(db, source))
  {
  }

  lemma InsertTeachingKeepsIntegrity(db: Db, source: int, rows: seq<(string, string)>)
    requires Integrity(db)
    ensures Integrity(InsertTeaching(db, source, rows))
  {
    var r := InsertTeaching(db, source, rows);
    forall p | p in r.teaching
      ensures exists s :: HasId(db.offerings, s, p.0) && HasId(db.teachers, s, p.1)
    {
      if p !in db.teaching {
        var row :| row in rows && (source, row.0) in db.offerings && (source, row.1) in db.teachers
          && p == (db.offerings[(source, row.0)].id, db.teachers[(source, row.1)].id);
        assert HasId(db.offerings, source, p.0) && HasId(db.teachers, source, p.1);
      }
    }
  }

  lemma {:induction false} InsertSlotsOnlySchedules(db: Db, source: int, rows: seq<(string, Slot)>)
    ensures InsertSlots(db, source, rows) == db.(schedules := InsertSlots(db, source, rows).schedules)
    decreases |rows|
  {
    if rows != [] {
      var k := (source, rows[0].0);
      if k !in db.offerings {
        InsertSlotsOnlySchedules(db, source, rows[1..]);
      } else {
        var id := db.offerings[k].id;
        InsertSlotsOnlySchedules(db.(schedules := db.schedules[id := SlotsAt(db.schedules, id) + multiset{rows[0].1}]), source, rows[1..]);
      }
    }
  }

  lemma {:induction false} InsertSlotsKeepsIntegrity(db: Db, source: int, rows: seq<(string, Slot)>)
    requires Integrity(db)
    ensures Integrity(InsertSlots(db, source, rows))
    decreases |rows|
  {
    if rows != [] {
      var k := (source, rows[0].0);
      if k !in db.offerings {
        InsertSlotsKeepsIntegrity(db, source, rows[1..]);
      } else {
        var id := db.offerings[k].id;
        assert HasId(db.offerings, source, id);
        InsertSlotsKeepsIntegrity(db.(schedules := db.schedules[id := SlotsAt(db.schedules, id) + multiset{rows[0].1}]), source, rows[1..]);
      }
    }
  }

  lemma {:induction false} InsertMembersKeepsIntegrity(db: Db, source: int, job: int, rows: seq<ImportMember>)
    requires Integrity(db) && InsertMembers(db, source, job, rows).Some?
    ensures Integrity(InsertMembers(db, source, job, rows).value)
    decreases |rows|
  {
    if rows != [] {
      if (source, rows[0].offering) !in db.offerings {
        InsertMembersKeepsIntegrity(db, source, job, rows[1..]);
      } else {
        var k := MemberAt(db, source, rows[0]);
        assert HasId(db.offerings, source, k.offering);
        InsertMembersKeepsIntegrity(db.(members := db.members[k := Member(job, rows[0].student)]), source, job, rows[1..]);
      }
    }
  }

  lemma AfterUpsertsKeepsIntegrity(db: Db, job: int, source: int, snapshot: Snapshot)
    requires Integrity(db) && ValidRows(snapshot)
    ensures Integrity(AfterUpserts(db, job, source, snapshot))
  {
    var d1 := UpsertTerms(db, job, source, snapshot.terms);
    var d2 := UpsertCourses(d1, job, source, snapshot.courses);
    var d3 := UpsertTeachers(d2, job, source, snapshot.teachers);
    UpsertTermsKeepsIntegrity(db, job, source, snapshot.terms);
    UpsertCoursesKeepsIntegrity(d1, job, source, snapshot.courses);
    UpsertTeachersKeepsIntegrity(d2, job, source, snapshot.teachers);
    UpsertKnows(db.terms, db.next, source, job, snapshot.terms);
    UpsertKnows(d1.courses, d1.next, source, job, snapshot.courses);
    UpsertOfferingsKeepsIntegrity(d3, job, source, snapshot.offerings);
  }

  lemma UpsertKnows<A>(t: Table<A>, next: int, source: int, job: int, items: seq<Item<A>>)
    requires DistinctIds(items)
    ensures forall id | Knows(items, id) :: (source, id) in Upsert(t, next, source, job, items)
  {
    forall id | Knows(items, id)
      ensures (source, id) in Upsert(t, next, source, job, items)
    {
      var i :| 0 <= i < |items| && items[i].externalId == id;
      UpsertAt(t, next, source, job, items, i);
    }
  }

  lemma AfterRelationsKeepsIntegrity(db: Db, source: int, snapshot: Snapshot)
    requires Integrity(db)
    ensures Integrity(AfterRelations(db, source, snapshot))
  {
    var d1 := ClearTeaching(db, source);
    var d2 := ClearSchedules(d1, source);
    ClearsKeepIntegrity(db, source);
    ClearsKeepIntegrity(d1, source);
    InsertTeachingKeepsIntegrity(d2, source, TeacherRows(snapshot.offerings));
    InsertSlotsKeepsIntegrity(InsertTeaching(d2, source, TeacherRows(snapshot.offerings)), source, SlotRows(snapshot.offerings));
  }

  lemma AfterPruningKeepsIntegrity(db: Db, source: int, snapshot: Snapshot)
    requires Integrity(db)
    ensures Integrity(AfterPruning(db, source, snapshot))
  {
    var d1 := DeleteOfferings(db, Stale(db.offerings, source, NonEmpty(OfferingIdsOf(snapshot.offerings))));
    var d2 := DeleteTerms(d1, Stale(d1.terms, source, NonEmpty(IdsOf(snapshot.terms))));
    var d3 := DeleteCourses(d2, Stale(d2.courses, source, NonEmpty(IdsOf(snapshot.courses))));
    DeleteOfferingsKeepsIntegrity(db, Stale(db.offerings, source, NonEmpty(OfferingIdsOf(snapshot.offerings))));
    DeleteTermsKeepsIntegrity(d1, Stale(d1.terms, source, NonEmpty(IdsOf(snapshot.terms))));
    DeleteCoursesKeepsIntegrity(d2, Stale(d2.courses, source, NonEmpty(IdsOf(snapshot.courses))));
    DeleteTeachersKeepsIntegrity(d3, Stale(d3.teachers, source, NonEmpty(IdsOf(snapshot.teachers))));
  }

  /** Integrity survives every import, empty external identifiers included: what they lose, the
      cascades take along. */
  lemma ImportKeepsIntegrity(db: Db, job: int, source: int, snapshot: Snapshot)
    requires Integrity(db) && ValidSnapshot(snapshot)
    ensures Imported(db, job, source, snapshot).Some? ==> Integrity(Imported(db, job, source, snapshot).value)
  {
    if Imported(db, job, source, snapshot).Some? {
      var d1 := AfterUpserts(db, job, source, snapshot);
      AfterUpsertsKeepsIntegrity(db, job, source, snapshot);
      AfterRelationsKeepsIntegrity(d1, source, snapshot);
      var d2 := AfterRelations(d1, source, snapshot);
      ClearsKeepIntegrity(d2, source);
      InsertMembersKeepsIntegrity(ClearMembers(d2, source), source, job, snapshot.members);
      AfterPruningKeepsIntegrity(AfterMembers(d2, job, source, snapshot).value, source, snapshot);
    }
  }
}
