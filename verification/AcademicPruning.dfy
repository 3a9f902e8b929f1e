/** Pruning: once the relations are replaced, deleting stale rows cascades to nothing. */
module AcademicPruning {
  import opened AcademicTables
  import opened AcademicImport
  import opened AcademicMeaning
  import opened AcademicRefinement

  function StaleOfferings(db: Db, source: int, snapshot: Snapshot): set<Key> {
    Stale(db.offerings, source, NonEmpty(OfferingIdsOf(snapshot.offerings)))
  }

  function StaleItems(t: Table<Attributes>, source: int, items: seq<Item<Attributes>>): set<Key> {
    Stale(t, source, NonEmpty(IdsOf(items)))
  }

  lemma KeptItems(items: seq<Item<Attributes>>, id: string)
    ensures id in NonEmpty(IdsOf(items)) <==> Knows(items, id) && id != ""
  {
    if id in IdsOf(items) {
      var i :| 0 <= i < |items| && IdsOf(items)[i] == id;
      assert items[i].externalId == id;
    }
    if Knows(items, id) {
      var i :| 0 <= i < |items| && items[i].externalId == id;
      assert IdsOf(items)[i] == id;
    }
  }

  lemma KeptOfferings(offerings: seq<ImportOffering>, id: string)
    ensures id in NonEmpty(OfferingIdsOf(offerings)) <==> KnowsOffering(offerings, id) && id != ""
  {
    if id in OfferingIdsOf(offerings) {
      var i :| 0 <= i < |offerings| && OfferingIdsOf(offerings)[i] == id;
      assert offerings[i].externalId == id;
    }
    if KnowsOffering(offerings, id) {
      var i :| 0 <= i < |offerings| && offerings[i].externalId == id;
      assert OfferingIdsOf(offerings)[i] == id;
    }
  }

  lemma StaleItemsMean(t: Table<Attributes>, source: int, items: seq<Item<Attributes>>)
    requires NoEmptyId(items)
    ensures forall k :: k in StaleItems(t, source, items) <==> k in t && k.0 == source && !Knows(items, k.1)
  {
    forall k | k in t && k.0 == source
      ensures k in StaleItems(t, source, items) <==> !Knows(items, k.1)
    {
      KeptItems(items, k.1);
    }
  }

  lemma StaleOfferingsMean(db: Db, source: int, snapshot: Snapshot)
    requires NoEmptyOfferingId(snapshot.offerings)
    ensures forall k :: k in StaleOfferings(db, source, snapshot) <==>
      k in db.offerings && k.0 == source && !KnowsOffering(snapshot.offerings, k.1)
  {
    forall k | k in db.offerings && k.0 == source
      ensures k in StaleOfferings(db, source, snapshot) <==> !KnowsOffering(snapshot.offerings, k.1)
    {
      KeptOfferings(snapshot.offerings, k.1);
    }
  }

  ghost predicate AllLive(db: Db, source: int, snapshot: Snapshot) {
    && (forall p | p in db.teaching :: Live(db, source, snapshot, p.0))
    && (forall o | o in db.schedules :: Live(db, source, snapshot, o))
    && (forall m | m in db.members :: Live(db, source, snapshot, m.offering))
  }

  /** Relations were replaced first, so a stale offering takes no relation along. */
  lemma PruneOfferingsIsPlain(db: Db, source: int, snapshot: Snapshot)
    requires UniqueIds(db.offerings, db.next) && AllLive(db, source, snapshot) && NoEmptyOfferingId(snapshot.offerings)
    ensures DeleteOfferings(db, StaleOfferings(db, source, snapshot))
      == db.(offerings := db.offerings - StaleOfferings(db, source, snapshot))
  {
    var stale := StaleOfferings(db, source, snapshot);
    StaleOfferingsMean(db, source, snapshot);
    var gone := Ids(db.offerings, stale);
    forall id | Live(db, source, snapshot, id)
      ensures id !in gone
    {
      var k :| k in db.offerings && db.offerings[k].id == id && (k.0 != source || KnowsOffering(snapshot.offerings, k.1));
    }
    var r := DeleteOfferings(db, stale);
    assert r.teaching == db.teaching;
    assert r.schedules == db.schedules;
    assert r.members == db.members;
  }

  ghost predicate KeepsRow(t: Table<Attributes>, source: int, id: int, items: seq<Item<Attributes>>) {
    exists k :: k in t && t[k].id == id && (k.0 != source || Knows(items, k.1))
  }

  lemma KeptIsNotGone(t: Table<Attributes>, next: int, source: int, items: seq<Item<Attributes>>, id: int)
    requires UniqueIds(t, next) && NoEmptyId(items) && KeepsRow(t, source, id, items)
    ensures id !in Ids(t, StaleItems(t, source, items))
  {
    StaleItemsMean(t, source, items);
    var k :| k in t && t[k].id == id && (k.0 != source || Knows(items, k.1));
  }

  lemma DeleteNoOfferings(db: Db)
    ensures DeleteOfferings(db, {}) == db
  {
  }

  /** Stale offerings are gone already, so a stale term takes no offering along. */
  lemma PruneTermsIsPlain(db: Db, source: int, items: seq<Item<Attributes>>)
    requires UniqueIds(db.terms, db.next) && NoEmptyId(items)
    requires forall k | k in db.offerings :: KeepsRow(db.terms, source, db.offerings[k].data.term, items)
    ensures DeleteTerms(db, StaleItems(db.terms, source, items)) == db.(terms := db.terms - StaleItems(db.terms, source, items))
  {
    var gone := Ids(db.terms, StaleItems(db.terms, source, items));
    forall k | k in db.offerings
      ensures db.offerings[k].data.term !in gone
    {
      KeptIsNotGone(db.terms, db.next, source, items, db.offerings[k].data.term);
    }
    assert (set k | k in db.offerings && db.offerings[k].data.term in gone) == {};
    DeleteNoOfferings(db.(terms := db.terms - StaleItems(db.terms, source, items)));
  }

  lemma PruneCoursesIsPlain(db: Db, source: int, items: seq<Item<Attributes>>)
    requires UniqueIds(db.courses, db.next) && NoEmptyId(items)
    requires forall k | k in db.offerings :: KeepsRow(db.courses, source, db.offerings[k].data.course, items)
    ensures DeleteCourses(db, StaleItems(db.courses, source, items)) == db.(courses := db.courses - StaleItems(db.courses, source, items))
  {
    var gone := Ids(db.courses, StaleItems(db.courses, source, items));
    forall k | k in db.offerings
      ensures db.offerings[k].data.course !in gone
    {
      KeptIsNotGone(db.courses, db.next, source, items, db.offerings[k].data.course);
    }
    assert (set k | k in db.offerings && db.offerings[k].data.course in gone) == {};
    DeleteNoOfferings(db.(courses := db.courses - StaleItems(db.courses, source, items)));
  }

  lemma PruneTeachersIsPlain(db: Db, source: int, items: seq<Item<Attributes>>)
    requires UniqueIds(db.teachers, db.next) && NoEmptyId(items)
    requires forall p | p in db.teaching :: KeepsRow(db.teachers, source, p.1, items)
    ensures DeleteTeachers(db, StaleItems(db.teachers, source, items)) == db.(teachers := db.teachers - StaleItems(db.teachers, source, items))
  {
    forall p | p in db.teaching
      ensures p.1 !in Ids(db.teachers, StaleItems(db.teachers, source, items))
    {
      KeptIsNotGone(db.teachers, db.next, source, items, p.1);
    }
    assert DeleteTeachers(db, StaleItems(db.teachers, source, items)).teaching == db.teaching;
  }

  /** The offerings that survive refer to terms and courses that survive. */
  lemma SurvivingOfferingsKeep(db: Db, source: int, job: int, snapshot: Snapshot)
    requires OfferingsRefer(db.offerings, db.terms, db.courses) && ValidRows(snapshot) && NoEmptyOfferingId(snapshot.offerings)
    requires LoadedAll(db, source, job, snapshot)
    ensures forall k | k in db.offerings && k !in StaleOfferings(db, source, snapshot) ::
      && KeepsRow(db.terms, source, db.offerings[k].data.term, snapshot.terms)
      && KeepsRow(db.courses, source, db.offerings[k].data.course, snapshot.courses)
  {
  }

  /** The teachers a relation refers to survive. */
  lemma TeachersKeep(db: Db, source: int, snapshot: Snapshot)
    requires Integrity(db) && ValidRelations(snapshot) && RepresentsTeaching(db, source, snapshot.offerings)
    ensures forall p | p in db.teaching :: KeepsRow(db.teachers, source, p.1, snapshot.teachers)
  {
    forall p | p in db.teaching
      ensures KeepsRow(db.teachers, source, p.1, snapshot.teachers)
    {
      var s :| HasId(db.offerings, s, p.0) && HasId(db.teachers, s, p.1);
      var t :| t in db.teachers && t.0 == s && db.teachers[t].id == p.1;
      if s == source {
        var k :| k in db.offerings && k.0 == s && db.offerings[k].id == p.0;
        assert k == (source, k.1) && t == (source, t.1);
        assert Teaches(snapshot.offerings, k.1, t.1);
        var i :| 0 <= i < |snapshot.offerings| && snapshot.offerings[i].externalId == k.1 && t.1 in snapshot.offerings[i].teachers;
        assert snapshot.offerings[i] in snapshot.offerings;
      }
    }
  }

  function Pruned(db: Db, source: int, snapshot: Snapshot): Db {
    db.(
      offerings := db.offerings - StaleOfferings(db, source, snapshot),
      terms := db.terms - StaleItems(db.terms, source, snapshot.terms),
      courses := db.courses - StaleItems(db.courses, source, snapshot.courses),
      teachers := db.teachers - StaleItems(db.teachers, source, snapshot.teachers))
  }

  /** With the relations in place, pruning deletes the stale rows of four tables and nothing else. */
  lemma PruningIsPlain(db: Db, source: int, job: int, snapshot: Snapshot)
    requires Integrity(db) && ValidSnapshot(snapshot) && Related(db, source, job, snapshot) && NoEmptyIds(snapshot)
    ensures AfterPruning(db, source, snapshot) == Pruned(db, source, snapshot)
  {
    PruneOfferingsIsPlain(db, source, snapshot);
    SurvivingOfferingsKeep(db, source, job, snapshot);
    TeachersKeep(db, source, snapshot);
    var d1 := db.(offerings := db.offerings - StaleOfferings(db, source, snapshot));
    PruneTermsIsPlain(d1, source, snapshot.terms);
    var d2 := d1.(terms := d1.terms - StaleItems(d1.terms, source, snapshot.terms));
    PruneCoursesIsPlain(d2, source, snapshot.courses);
    var d3 := d2.(courses := d2.courses - StaleItems(d2.courses, source, snapshot.courses));
    PruneTeachersIsPlain(d3, source, snapshot.teachers);
  }

  lemma PrunedItemsRepresent(t: Table<Attributes>, source: int, job: int, items: seq<Item<Attributes>>)
    requires Loaded(t, source, job, items) && NoEmptyId(items)
    ensures RepresentsItems(t - StaleItems(t, source, items), source, job, items)
  {
    StaleItemsMean(t, source, items);
    forall i | 0 <= i < |items|
      ensures (source, items[i].externalId) in t && (source, items[i].externalId) !in StaleItems(t, source, items)
    {
      assert (source, items[i].externalId).1 == items[i].externalId;
    }
  }

  /** Pruning skips empty external ids, so it deletes the rows that carry them. */
  lemma PruningDropsEmptyIds(db: Db, source: int, snapshot: Snapshot)
    ensures var r := AfterPruning(db, source, snapshot);
      (source, "") !in r.terms && (source, "") !in r.courses && (source, "") !in r.teachers && (source, "") !in r.offerings
  {
  }

  lemma EmptyIdsAreNotRepresented(db: Db, source: int, job: int, snapshot: Snapshot)
    requires (source, "") !in db.terms && (source, "") !in db.courses && (source, "") !in db.teachers && (source, "") !in db.offerings
    requires Represents(db, source, job, snapshot)
    ensures NoEmptyIds(snapshot)
  {
  }
}
