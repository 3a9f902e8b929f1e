/** The repository method that replaces a snapshot, step by step over its own tables. */
module AcademicRepository {
  import opened Options
  import opened AcademicTables
  import opened AcademicImport
  import opened AcademicIntegrity
  import opened AcademicMeaning
  import opened AcademicIsolation
  import opened AcademicRefinement
  import opened AcademicSurvivors
  import opened AcademicOutcome
  import opened AcademicEquivalence

  class Repository {
    var db: Db

    method UpsertTermsTx(job: int, source: int, terms: seq<Item<Attributes>>) returns (r: Result<map<string, int>, ImportError>)
      modifies this
      ensures r.Ok? <==> AllFit(terms) && DistinctIds(terms)
      ensures r.Ok? ==> db == UpsertTerms(old(db), job, source, terms)
      ensures r.Ok? ==> forall id :: id in r.value <==> Knows(terms, id)
    {
      var rows, mapping := UpsertRows(db.terms, db.next, source, job, terms, |terms|);
      if rows.Err? {
        return Err(rows.error);
      }
      db := db.(terms := rows.value, next := db.next + |terms|);
      return Ok(mapping);
    }

    method UpsertCoursesTx(job: int, source: int, courses: seq<Item<Attributes>>) returns (r: Result<map<string, int>, ImportError>)
      modifies this
      ensures r.Ok? <==> AllFit(courses) && DistinctIds(courses)
      ensures r.Ok? ==> db == UpsertCourses(old(db), job, source, courses)
      ensures r.Ok? ==> forall id :: id in r.value <==> Knows(courses, id)
    {
      var rows, mapping := UpsertRows(db.courses, db.next, source, job, courses, |courses|);
      if rows.Err? {
        return Err(rows.error);
      }
      db := db.(courses := rows.value, next := db.next + |courses|);
      return Ok(mapping);
    }

    method UpsertTeachersTx(job: int, source: int, teachers: seq<Item<Attributes>>) returns (r: Result<map<string, int>, ImportError>)
      modifies this
      ensures r.Ok? <==> AllFit(teachers) && DistinctIds(teachers)
      ensures r.Ok? ==> db == UpsertTeachers(old(db), job, source, teachers)
      ensures r.Ok? ==> forall id :: id in r.value <==> Knows(teachers, id)
    {
      var rows, mapping := UpsertRows(db.teachers, db.next, source, job, teachers, |teachers|);
      if rows.Err? {
        return Err(rows.error);
      }
      db := db.(teachers := rows.value, next := db.next + |teachers|);
      return Ok(mapping);
    }

    method UpsertOfferingsTx(job: int, source: int, offerings: seq<ImportOffering>, termIds: map<string, int>, courseIds: map<string, int>)
      returns (r: Result<map<string, int>, ImportError>)
      requires forall id | id in termIds :: (source, id) in db.terms
      requires forall id | id in courseIds :: (source, id) in db.courses
      modifies this
      ensures r.Ok? <==> DistinctOfferings(offerings) && forall o | o in offerings :: o.fits && o.term in termIds && o.course in courseIds
      ensures r.Ok? ==> db == UpsertOfferings(old(db), job, source, offerings)
      ensures r.Ok? ==> forall id :: id in r.value <==> KnowsOffering(offerings, id)
    {
      for i := 0 to |offerings|
        invariant forall j | 0 <= j < i :: offerings[j].term in termIds && offerings[j].course in courseIds
      {
        if offerings[i].term !in termIds || offerings[i].course !in courseIds {
          assert offerings[i] in offerings;
          return Err(UnknownReference);
        }
      }
      var items := Joined(db.terms, db.courses, source, offerings);
      JoinedAll(db.terms, db.courses, source, offerings);
      JoinedMeans(offerings, items);
      var rows, mapping := UpsertRows(db.offerings, db.next, source, job, items, |offerings|);
      if rows.Err? {
        return Err(rows.error);
      }
      db := db.(offerings := rows.value, next := db.next + |items|);
      return Ok(mapping);
    }

    method ReplaceOfferingRelationsTx(source: int, snapshot: Snapshot, teacherIds: map<string, int>, offeringIds: map<string, int>)
      returns (r: Result<(), ImportError>)
      requires forall id :: id in teacherIds <==> Knows(snapshot.teachers, id)
      requires forall id :: id in offeringIds <==> KnowsOffering(snapshot.offerings, id)
      requires forall id | id in offeringIds :: (source, id) in db.offerings
      modifies this
      ensures r.Ok? <==> ValidRelations(snapshot)
      ensures r.Ok? ==> db == AfterRelations(old(db), source, snapshot)
    {
      db := ClearTeaching(db, source);
      db := ClearSchedules(db, source);
      var rows := CollectRelations(snapshot.offerings, teacherIds, offeringIds);
      forall o | o in snapshot.offerings
        ensures o.externalId in offeringIds
      {
        var i :| 0 <= i < |snapshot.offerings| && snapshot.offerings[i] == o;
      }
      if rows.Err? {
        return Err(rows.error);
      }
      db := InsertTeaching(db, source, rows.value.0);
      var slots := rows.value.1;
      SlotRowsBelong(snapshot.offerings);
      if exists row :: row in slots && !IsSlot(row.1) {
        return Err(CheckViolation);
      }
      SlotsAllKnown(db, source, snapshot.offerings);
      var affected := CountKnown(db.offerings, source, OfferingsOfSlots(slots));
      db := InsertSlots(db, source, slots);
      if affected != |slots| {
        return Err(CountMismatch);
      }
      return Ok(());
    }

    method ReplaceMembershipsTx(job: int, source: int, snapshot: Snapshot, offeringIds: map<string, int>)
      returns (r: Result<(), ImportError>)
      requires UniqueIds(db.offerings, db.next)
      requires forall id :: id in offeringIds <==> KnowsOffering(snapshot.offerings, id)
      requires forall id | id in offeringIds :: (source, id) in db.offerings
      modifies this
      ensures r.Ok? <==> ValidMembers(snapshot)
      ensures r.Ok? ==> Some(db) == AfterMembers(old(db), job, source, snapshot)
    {
      db := ClearMembers(db, source);
      var members := snapshot.members;
      for i := 0 to |members|
        invariant forall j | 0 <= j < i :: members[j].offering in offeringIds
      {
        if members[i].offering !in offeringIds {
          assert members[i] in members;
          return Err(UnknownReference);
        }
      }
      InsertMembersIff(db, source, job, members);
      var inserted := InsertMembers(db, source, job, members);
      if inserted == None {
        assert !ValidMembers(snapshot);
        return Err(CheckViolation);
      }
      var ids := seq(|members|, i requires 0 <= i < |members| => members[i].offering);
      CountAllKnown(db.offerings, source, ids);
      var affected := CountKnown(db.offerings, source, ids);
      db := inserted.value;
      if affected != |members| {
        return Err(CountMismatch);
      }
      return Ok(());
    }

    method PruneStaleSnapshotRowsTx(source: int, snapshot: Snapshot)
      modifies this
      ensures db == AfterPruning(old(db), source, snapshot)
    {
      var offerings := ExternalIds(OfferingIdsOf(snapshot.offerings));
      StaleKeysAreStale(db.offerings, source, offerings, NonEmpty(OfferingIdsOf(snapshot.offerings)));
      db := DeleteOfferings(db, StaleKeys(db.offerings, source, offerings));
      var terms := ExternalIds(IdsOf(snapshot.terms));
      StaleKeysAreStale(db.terms, source, terms, NonEmpty(IdsOf(snapshot.terms)));
      db := DeleteTerms(db, StaleKeys(db.terms, source, terms));
      var courses := ExternalIds(IdsOf(snapshot.courses));
      StaleKeysAreStale(db.courses, source, courses, NonEmpty(IdsOf(snapshot.courses)));
      db := DeleteCourses(db, StaleKeys(db.courses, source, courses));
      var teachers := ExternalIds(IdsOf(snapshot.teachers));
      StaleKeysAreStale(db.teachers, source, teachers, NonEmpty(IdsOf(snapshot.teachers)));
      db := DeleteTeachers(db, StaleKeys(db.teachers, source, teachers));
    }

    /** Succeeds exactly on the snapshots the schema allows, whatever the tables hold, and changes
        nothing when it fails. */
    method ReplaceSnapshot(job: int, source: int, snapshot: Snapshot) returns (r: Result<(), ImportError>)
      requires Integrity(db)
      modifies this
      ensures r.Ok? <==> ValidSnapshot(snapshot)
      ensures r.Ok? ==> Some(db) == Imported(old(db), job, source, snapshot)
      ensures r.Err? ==> db == old(db)
      ensures Integrity(db)
      ensures r.Ok? ==> Represents(db, source, job, Surviving(snapshot))
      ensures r.Ok? ==> (Represents(db, source, job, snapshot) <==> NoEmptyIds(snapshot))
      ensures r.Ok? ==> OthersUntouched(old(db), db, source) && KeptIds(old(db), db)
    {
      var saved := db;
      r := ImportTx(job, source, snapshot);
      if r.Err? {
        db := saved;
        return;
      }
      ImportKeepsIntegrity(saved, job, source, snapshot);
      ImportRepresentsSurvivors(saved, job, source, snapshot);
      ImportRepresentsIff(saved, job, source, snapshot);
      ImportLeavesOthers(saved, job, source, snapshot);
      ImportKeepsIds(saved, job, source, snapshot);
    }

    /** The transaction body. */
    method ImportTx(job: int, source: int, snapshot: Snapshot) returns (r: Result<(), ImportError>)
      requires Integrity(db)
      modifies this
      ensures r.Ok? <==> ValidSnapshot(snapshot)
      ensures r.Ok? ==> Some(db) == Imported(old(db), job, source, snapshot)
    {
      var loaded := LoadTx(job, source, snapshot);
      if loaded.Err? {
        return Err(loaded.error);
      }
      ghost var loadedDb := db;
      var teacherIds, offeringIds := loaded.value.0, loaded.value.1;
      var related := ReplaceOfferingRelationsTx(source, snapshot, teacherIds, offeringIds);
      if related.Err? {
        return related;
      }
      AfterRelationsKeepsIntegrity(loadedDb, source, snapshot);
      RelationsKeepOfferings(loadedDb, source, snapshot);
      r := ReplaceMembershipsTx(job, source, snapshot, offeringIds);
      if r.Ok? {
        PruneStaleSnapshotRowsTx(source, snapshot);
      }
    }

    /** The four upserts. */
    method LoadTx(job: int, source: int, snapshot: Snapshot) returns (r: Result<(map<string, int>, map<string, int>), ImportError>)
      requires Integrity(db)
      modifies this
      ensures r.Ok? <==> ValidRows(snapshot)
      ensures r.Ok? ==> db == AfterUpserts(old(db), job, source, snapshot) && Integrity(db)
      ensures r.Ok? ==> forall id :: id in r.value.0 <==> Knows(snapshot.teachers, id)
      ensures r.Ok? ==> forall id :: id in r.value.1 <==> KnowsOffering(snapshot.offerings, id)
      ensures r.Ok? ==> forall id | id in r.value.1 :: (source, id) in db.offerings
    {
      var termIds := UpsertTermsTx(job, source, snapshot.terms);
      if termIds.Err? {
        return Err(termIds.error);
      }
      UpsertTermsKeepsIntegrity(old(db), job, source, snapshot.terms);
      UpsertKnows(old(db).terms, old(db).next, source, job, snapshot.terms);
      ghost var d1 := db;
      var courseIds := UpsertCoursesTx(job, source, snapshot.courses);
      if courseIds.Err? {
        return Err(courseIds.error);
      }
      UpsertCoursesKeepsIntegrity(d1, job, source, snapshot.courses);
      UpsertKnows(d1.courses, d1.next, source, job, snapshot.courses);
      ghost var d2 := db;
      var teacherIds := UpsertTeachersTx(job, source, snapshot.teachers);
      if teacherIds.Err? {
        return Err(teacherIds.error);
      }
      UpsertTeachersKeepsIntegrity(d2, job, source, snapshot.teachers);
      ghost var d3 := db;
      var offeringIds := UpsertOfferingsTx(job, source, snapshot.offerings, termIds.value, courseIds.value);
      if offeringIds.Err? {
        return Err(offeringIds.error);
      }
      UpsertOfferingsKeepsIntegrity(d3, job, source, snapshot.offerings);
      UpsertedOfferingsKnown(d3, job, source, snapshot.offerings);
      return Ok((teacherIds.value, offeringIds.value));
    }
  }

  lemma JoinedMeans(offerings: seq<ImportOffering>, items: seq<Item<Offering>>)
    requires |items| == |offerings|
    requires forall i | 0 <= i < |items| :: items[i].externalId == offerings[i].externalId && items[i].fits == offerings[i].fits
    ensures DistinctIds(items) <==> DistinctOfferings(offerings)
    ensures AllFit(items) <==> forall o | o in offerings :: o.fits
    ensures forall id :: Knows(items, id) <==> KnowsOffering(offerings, id)
  {
    assert forall i | 0 <= i < |items| :: items[i].fits == offerings[i].fits && offerings[i] in offerings;
  }

  /** The two delete statements of deleteStaleRowsByExternalIDTx select the same rows. */
  function StaleKeys<A>(t: Table<A>, source: int, kept: seq<string>): set<Key> {
    if |kept| == 0 then SourceKeys(t, source)
    else set k | k in t && k.0 == source && k.1 !in kept
  }

  lemma StaleKeysAreStale<A>(t: Table<A>, source: int, kept: seq<string>, ids: set<string>)
    requires forall id :: id in kept <==> id in ids
    ensures StaleKeys(t, source, kept) == Stale(t, source, ids)
  {
  }

  /** Every slot row finds its offering, so none is lost in the join. */
  lemma SlotsAllKnown(db: Db, source: int, offerings: seq<ImportOffering>)
    requires forall id | KnowsOffering(offerings, id) :: (source, id) in db.offerings
    ensures CountKnown(db.offerings, source, OfferingsOfSlots(SlotRows(offerings))) == |SlotRows(offerings)|
  {
    SlotRowsBelong(offerings);
    var rows := SlotRows(offerings);
    forall id | id in OfferingsOfSlots(rows)
      ensures (source, id) in db.offerings
    {
      var i :| 0 <= i < |rows| && OfferingsOfSlots(rows)[i] == id;
      assert rows[i] in rows;
    }
    CountAllKnown(db.offerings, source, OfferingsOfSlots(rows));
  }

  function OfferingsOfSlots(rows: seq<(string, Slot)>): seq<string> {
    seq(|rows|, i requires 0 <= i < |rows| => rows[i].0)
  }

  lemma {:induction false} SlotRowsBelong(offerings: seq<ImportOffering>)
    ensures forall row | row in SlotRows(offerings) :: KnowsOffering(offerings, row.0)
    ensures (exists row :: row in SlotRows(offerings) && !IsSlot(row.1)) <==>
      exists o :: o in offerings && exists slot :: slot in o.slots && !IsSlot(slot)
  {
    if offerings != [] {
      var o, rest := offerings[0], offerings[1..];
      SlotRowsBelong(rest);
      var head := SlotRowsOf(o.externalId, o.slots);
      forall row | row in SlotRows(offerings)
        ensures KnowsOffering(offerings, row.0)
      {
        if row in head {
          assert offerings[0].externalId == row.0;
        } else {
          var i :| 0 <= i < |rest| && rest[i].externalId == row.0;
          assert offerings[i + 1].externalId == row.0;
        }
      }
      forall slot | slot in o.slots
        ensures (o.externalId, slot) in SlotRows(offerings)
      {
        var i :| 0 <= i < |o.slots| && o.slots[i] == slot;
        assert head[i] == (o.externalId, slot);
      }
      forall row | row in head
        ensures row.1 in o.slots
      {
      }
    }
  }

  lemma UpsertedOfferingsKnown(db: Db, job: int, source: int, offerings: seq<ImportOffering>)
    requires RefersKnown(db, source, offerings) && DistinctOfferings(offerings)
    ensures forall id | KnowsOffering(offerings, id) :: (source, id) in UpsertOfferings(db, job, source, offerings).offerings
  {
    JoinedAll(db.terms, db.courses, source, offerings);
    var items := Joined(db.terms, db.courses, source, offerings);
    forall id | KnowsOffering(offerings, id)
      ensures (source, id) in UpsertOfferings(db, job, source, offerings).offerings
    {
      var i :| 0 <= i < |offerings| && offerings[i].externalId == id;
      assert items[i].externalId == id;
      UpsertAt(db.offerings, db.next, source, job, items, i);
    }
  }

  lemma RelationsKeepOfferings(db: Db, source: int, snapshot: Snapshot)
    ensures AfterRelations(db, source, snapshot).offerings == db.offerings
  {
    InsertSlotsOnlySchedules(InsertTeaching(ClearSchedules(ClearTeaching(db, source), source), source, TeacherRows(snapshot.offerings)),
      source, SlotRows(snapshot.offerings));
  }
}
