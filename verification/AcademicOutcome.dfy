/** The rows an import leaves, for every valid snapshot, empty external ids included. */
module AcademicOutcome {
  import opened Options
  import opened AcademicTables
  import opened AcademicImport
  import opened AcademicMeaning
  import opened AcademicRefinement
  import opened AcademicPruning
  import opened AcademicSurvivors

  // ---- pruning with its cascades, in one step ----

  /** The source's offerings that do not survive. */
  function Lost(db: Db, source: int, s: Snapshot): set<Key> {
    set k | k in db.offerings && k.0 == source && !KnowsOffering(s.offerings, k.1)
  }

  /** One delete for each table, with the cascades of all. */
  function Trimmed(db: Db, source: int, s: Snapshot): Db {
    var d := DeleteOfferings(db, Lost(db, source, s));
    DeleteTeachers(
      d.(terms := d.terms - StaleItems(d.terms, source, s.terms), courses := d.courses - StaleItems(d.courses, source, s.courses)),
      StaleItems(d.teachers, source, s.teachers))
  }

  lemma IdsOfUnion<A>(t: Table<A>, a: set<Key>, b: set<Key>)
    ensures Ids(t, a + b) == Ids(t, a) + Ids(t - a, b)
  {
  }

  lemma DeleteTwice(db: Db, a: set<Key>, b: set<Key>)
    ensures DeleteOfferings(DeleteOfferings(db, a), b) == DeleteOfferings(db, a + b)
  {
    IdsOfUnion(db.offerings, a, b);
    var twice, once := DeleteOfferings(DeleteOfferings(db, a), b), DeleteOfferings(db, a + b);
    assert twice.offerings == once.offerings;
    assert twice.teaching == once.teaching;
    assert twice.schedules == once.schedules;
    assert twice.members == once.members;
  }

  lemma SameStale(t: Table<Attributes>, source: int, items: seq<Item<Attributes>>)
    ensures StaleItems(t, source, items) == StaleItems(t, source, KeepItems(items))
  {
    forall id
      ensures id in NonEmpty(IdsOf(items)) <==> id in NonEmpty(IdsOf(KeepItems(items)))
    {
      KeptItems(items, id);
      KeptItems(KeepItems(items), id);
      KnowsKept(items, id);
    }
  }

  /** A surrogate key of a kept row is not among those of the deleted ones. */
  lemma InStaleIff(t: Table<Attributes>, next: int, source: int, items: seq<Item<Attributes>>, k: Key)
    requires UniqueIds(t, next) && k in t
    ensures t[k].id in Ids(t, StaleItems(t, source, items)) <==> k in StaleItems(t, source, items)
  {
  }

  function OfTerms(db: Db, keys: set<Key>): set<Key> {
    set k | k in db.offerings && db.offerings[k].data.term in Ids(db.terms, keys)
  }

  function OfCourses(db: Db, keys: set<Key>): set<Key> {
    set k | k in db.offerings && db.offerings[k].data.course in Ids(db.courses, keys)
  }

  /** What the deletes of terms and courses take along. */
  function CascadeTakes(db: Db, source: int, snapshot: Snapshot): set<Key> {
    OfTerms(db, StaleItems(db.terms, source, snapshot.terms)) + OfCourses(db, StaleItems(db.courses, source, snapshot.courses))
  }

  /** The cascades do not leave the source. */
  lemma ForeignIsKept(db: Db, source: int, snapshot: Snapshot, k: Key)
    requires UniqueIds(db.terms, db.next) && UniqueIds(db.courses, db.next) && OfferingsRefer(db.offerings, db.terms, db.courses)
    requires k in db.offerings && k.0 != source
    ensures k !in CascadeTakes(db, source, snapshot)
  {
    var t :| t in db.terms && t.0 == k.0 && db.terms[t].id == db.offerings[k].data.term;
    var c :| c in db.courses && c.0 == k.0 && db.courses[c].id == db.offerings[k].data.course;
    InStaleIff(db.terms, db.next, source, snapshot.terms, t);
    InStaleIff(db.courses, db.next, source, snapshot.courses, c);
  }

  lemma KnowsOne(items: seq<Item<Attributes>>, t: Table<Attributes>, source: int, id: string)
    requires Knows(items, id) && (source, id) in t
    ensures (source, id) in StaleItems(t, source, items) <==> id == ""
  {
    KeptItems(items, id);
    assert (source, id).1 == id && (source, id).0 == source;
  }

  /** An imported offering is taken by a cascade exactly when its term or its course has an empty id. */
  lemma ImportedIsTakenIff(db: Db, source: int, job: int, snapshot: Snapshot, o: ImportOffering)
    requires UniqueIds(db.terms, db.next) && UniqueIds(db.courses, db.next)
    requires ValidRows(snapshot) && o in snapshot.offerings && RepresentsOffering(db, source, job, o)
    ensures (source, o.externalId) in db.offerings
    ensures (source, o.externalId) in CascadeTakes(db, source, snapshot) <==> o.term == "" || o.course == ""
  {
    KnowsOne(snapshot.terms, db.terms, source, o.term);
    KnowsOne(snapshot.courses, db.courses, source, o.course);
    InStaleIff(db.terms, db.next, source, snapshot.terms, (source, o.term));
    InStaleIff(db.courses, db.next, source, snapshot.courses, (source, o.course));
  }

  /** Stale or taken along is the same as not surviving. */
  lemma LostIff(db: Db, source: int, job: int, snapshot: Snapshot, k: Key)
    requires UniqueIds(db.terms, db.next) && UniqueIds(db.courses, db.next) && OfferingsRefer(db.offerings, db.terms, db.courses)
    requires ValidRows(snapshot) && LoadedAll(db, source, job, snapshot) && k in db.offerings
    ensures k in Lost(db, source, Surviving(snapshot)) <==>
      k in StaleOfferings(db, source, snapshot) + CascadeTakes(db, source, snapshot)
  {
    KeptOfferings(snapshot.offerings, k.1);
    if k.0 != source {
      ForeignIsKept(db, source, snapshot, k);
    } else if KnowsOffering(snapshot.offerings, k.1) {
      var i :| 0 <= i < |snapshot.offerings| && snapshot.offerings[i].externalId == k.1;
      var o := snapshot.offerings[i];
      assert k == (source, o.externalId) && o in snapshot.offerings;
      assert RepresentsOffering(db, source, job, o);
      ImportedIsTakenIff(db, source, job, snapshot, o);
      KnowsKeptOffering(snapshot.offerings, o);
    } else {
      KeptWasKnown(snapshot.offerings, k.1);
    }
  }

  lemma KeptWasKnown(offerings: seq<ImportOffering>, id: string)
    ensures KnowsOffering(KeepOfferings(offerings), id) ==> KnowsOffering(offerings, id)
  {
    if KnowsOffering(KeepOfferings(offerings), id) {
      var o := KnownKeptIsKnown(offerings, id);
      var i :| 0 <= i < |offerings| && offerings[i] == o;
    }
  }

  lemma TermsStep(db: Db, a: set<Key>, keys: set<Key>)
    ensures DeleteTerms(DeleteOfferings(db, a), keys) == DeleteOfferings(db, a + OfTerms(db, keys)).(terms := db.terms - keys)
  {
    var d := DeleteOfferings(db, a);
    var b := OfTerms(d, keys);
    DeleteTwice(db, a, b);
    OnlyKeysMatter(db, a + b, a + OfTerms(db, keys));
    assert DeleteOfferings(d.(terms := db.terms - keys), b) == DeleteOfferings(d, b).(terms := db.terms - keys);
  }

  lemma CoursesStep(db: Db, a: set<Key>, terms: Table<Attributes>, keys: set<Key>)
    ensures DeleteCourses(DeleteOfferings(db, a).(terms := terms), keys)
      == DeleteOfferings(db, a + OfCourses(db, keys)).(terms := terms, courses := db.courses - keys)
  {
    var d := DeleteOfferings(db, a);
    var b := OfCourses(d, keys);
    DeleteTwice(db, a, b);
    OnlyKeysMatter(db, a + b, a + OfCourses(db, keys));
    assert DeleteOfferings(d.(terms := terms, courses := db.courses - keys), b)
      == DeleteOfferings(d, b).(terms := terms, courses := db.courses - keys);
  }

  /** The three deletes that reach offerings, as one. */
  lemma OfferingDeletesAreOne(db: Db, source: int, job: int, snapshot: Snapshot)
    requires UniqueIds(db.terms, db.next) && UniqueIds(db.courses, db.next) && OfferingsRefer(db.offerings, db.terms, db.courses)
    requires ValidRows(snapshot) && LoadedAll(db, source, job, snapshot)
    ensures var d1 := DeleteOfferings(db, StaleOfferings(db, source, snapshot));
      var d2 := DeleteTerms(d1, StaleItems(d1.terms, source, snapshot.terms));
      var d3 := DeleteCourses(d2, StaleItems(d2.courses, source, snapshot.courses));
      d3 == DeleteOfferings(db, Lost(db, source, Surviving(snapshot))).(
        terms := db.terms - StaleItems(db.terms, source, snapshot.terms),
        courses := db.courses - StaleItems(db.courses, source, snapshot.courses))
  {
    var a := StaleOfferings(db, source, snapshot);
    var staleTerms, staleCourses := StaleItems(db.terms, source, snapshot.terms), StaleItems(db.courses, source, snapshot.courses);
    TermsStep(db, a, staleTerms);
    CoursesStep(db, a + OfTerms(db, staleTerms), db.terms - staleTerms, staleCourses);
    LostIsAll(db, source, job, snapshot);
    OnlyKeysMatter(db, a + OfTerms(db, staleTerms) + OfCourses(db, staleCourses), Lost(db, source, Surviving(snapshot)));
  }

  lemma LostIsAll(db: Db, source: int, job: int, snapshot: Snapshot)
    requires UniqueIds(db.terms, db.next) && UniqueIds(db.courses, db.next) && OfferingsRefer(db.offerings, db.terms, db.courses)
    requires ValidRows(snapshot) && LoadedAll(db, source, job, snapshot)
    ensures forall k | k in db.offerings ::
      k in StaleOfferings(db, source, snapshot) + CascadeTakes(db, source, snapshot) <==> k in Lost(db, source, Surviving(snapshot))
  {
    forall k | k in db.offerings
      ensures k in StaleOfferings(db, source, snapshot) + CascadeTakes(db, source, snapshot) <==> k in Lost(db, source, Surviving(snapshot))
    {
      LostIff(db, source, job, snapshot, k);
    }
  }

  lemma OnlyKeysMatter(db: Db, a: set<Key>, b: set<Key>)
    requires forall k | k in db.offerings :: k in a <==> k in b
    ensures DeleteOfferings(db, a) == DeleteOfferings(db, b)
  {
    assert Ids(db.offerings, a) == Ids(db.offerings, b);
    assert db.offerings - a == db.offerings - b;
  }

  /** Pruning deletes what does not survive, and what depends on it, in one step. */
  lemma PruningTrims(db: Db, source: int, job: int, snapshot: Snapshot)
    requires UniqueIds(db.terms, db.next) && UniqueIds(db.courses, db.next) && OfferingsRefer(db.offerings, db.terms, db.courses)
    requires ValidRows(snapshot) && LoadedAll(db, source, job, snapshot)
    ensures AfterPruning(db, source, snapshot) == Trimmed(db, source, Surviving(snapshot))
  {
    OfferingDeletesAreOne(db, source, job, snapshot);
    SameStale(db.terms, source, snapshot.terms);
    SameStale(db.courses, source, snapshot.courses);
    SameStale(db.teachers, source, snapshot.teachers);
  }

  // ---- what is left represents what survives ----

  lemma KeptAreLoaded(t: Table<Attributes>, source: int, job: int, items: seq<Item<Attributes>>)
    requires Loaded(t, source, job, items)
    ensures Loaded(t, source, job, KeepItems(items))
  {
    KeepItemsMeans(items);
    var kept := KeepItems(items);
    forall i | 0 <= i < |kept|
      ensures var k := (source, kept[i].externalId); k in t && t[k].data == kept[i].data && t[k].job == job
    {
      assert kept[i] in items;
      var j :| 0 <= j < |items| && items[j] == kept[i];
    }
  }

  lemma KeptRepresent(t: Table<Attributes>, source: int, job: int, items: seq<Item<Attributes>>)
    requires Loaded(t, source, job, items)
    ensures RepresentsItems(t - StaleItems(t, source, KeepItems(items)), source, job, KeepItems(items))
  {
    KeptAreLoaded(t, source, job, items);
    KeepItemsMeans(items);
    var kept := KeepItems(items);
    assert forall i | 0 <= i < |kept| :: kept[i] in kept;
    PrunedItemsRepresent(t, source, job, kept);
  }

  /** A row that a surviving offering refers to is kept. */
  lemma ReferredIsKept(t: Table<Attributes>, source: int, items: seq<Item<Attributes>>, id: string)
    requires Knows(items, id) && id != "" && (source, id) in t
    ensures (source, id) in t - StaleItems(t, source, KeepItems(items))
  {
    SameStale(t, source, items);
    KnowsOne(items, t, source, id);
  }

  lemma SurvivorIsRepresented(db: Db, source: int, job: int, snapshot: Snapshot, o: ImportOffering)
    requires ValidRows(snapshot) && o in snapshot.offerings && OfferingSurvives(o) && RepresentsOffering(db, source, job, o)
    ensures RepresentsOffering(Trimmed(db, source, Surviving(snapshot)), source, job, o.(teachers := KeepIds(o.teachers)))
  {
    KnowsKeptOffering(snapshot.offerings, o);
    ReferredIsKept(db.terms, source, snapshot.terms, o.term);
    ReferredIsKept(db.courses, source, snapshot.courses, o.course);
    assert (source, o.externalId).1 == o.externalId;
  }

  lemma OfferingsAreLeft(db: Db, source: int, job: int, snapshot: Snapshot)
    requires ValidRows(snapshot) && LoadedAll(db, source, job, snapshot)
    ensures RepresentsOfferings(Trimmed(db, source, Surviving(snapshot)), source, job, KeepOfferings(snapshot.offerings))
  {
    var r, kept := Trimmed(db, source, Surviving(snapshot)), KeepOfferings(snapshot.offerings);
    KeepOfferingsMeans(snapshot.offerings);
    forall i | 0 <= i < |kept|
      ensures RepresentsOffering(r, source, job, kept[i])
    {
      assert kept[i] in kept;
      var o :| o in snapshot.offerings && OfferingSurvives(o) && kept[i] == o.(teachers := KeepIds(o.teachers));
      var j :| 0 <= j < |snapshot.offerings| && snapshot.offerings[j] == o;
      assert RepresentsOffering(db, source, job, snapshot.offerings[j]);
      SurvivorIsRepresented(db, source, job, snapshot, o);
    }
  }

  /** Of a surviving offering, its teachers with an id teach it, and no others. */
  lemma TeachesKept(offerings: seq<ImportOffering>, o: ImportOffering, t: string)
    requires DistinctOfferings(offerings) && o in offerings && OfferingSurvives(o) && t != ""
    ensures Teaches(KeepOfferings(offerings), o.externalId, t) <==> Teaches(offerings, o.externalId, t)
  {
    KeepIdsMeans(o.teachers);
    KeepOfferingsMeans(offerings);
    var kept := KeepOfferings(offerings);
    var j :| 0 <= j < |kept| && kept[j] == o.(teachers := KeepIds(o.teachers));
    var k :| 0 <= k < |offerings| && offerings[k] == o;
    if Teaches(kept, o.externalId, t) {
      var i :| 0 <= i < |kept| && kept[i].externalId == o.externalId && t in kept[i].teachers;
      assert kept[i] in kept;
      var x :| x in offerings && OfferingSurvives(x) && kept[i] == x.(teachers := KeepIds(x.teachers));
      SameIdSameOffering(offerings, o, x);
    }
    if Teaches(offerings, o.externalId, t) {
      var i :| 0 <= i < |offerings| && offerings[i].externalId == o.externalId && t in offerings[i].teachers;
      SameIdSameOffering(offerings, o, offerings[i]);
      assert kept[j].externalId == o.externalId && t in kept[j].teachers;
    }
  }

  /** What is left of an offering's relations is what there was. */
  lemma RelationsOfKept(db: Db, source: int, s: Snapshot, k: Key, t: Key)
    requires UniqueIds(db.offerings, db.next) && UniqueIds(db.teachers, db.next)
    requires k in db.offerings && k !in Lost(db, source, s) && t in db.teachers && t !in StaleItems(db.teachers, source, s.teachers)
    ensures var r := Trimmed(db, source, s);
      (db.offerings[k].id, db.teachers[t].id) in r.teaching <==> (db.offerings[k].id, db.teachers[t].id) in db.teaching
  {
    KeptIdStays(db, source, s, k);
    InStaleIff(db.teachers, db.next, source, s.teachers, t);
  }

  lemma KeptIdStays(db: Db, source: int, s: Snapshot, k: Key)
    requires UniqueIds(db.offerings, db.next) && k in db.offerings
    ensures db.offerings[k].id in Ids(db.offerings, Lost(db, source, s)) <==> k in Lost(db, source, s)
  {
  }

  lemma TeachingIsLeft(db: Db, source: int, snapshot: Snapshot)
    requires UniqueIds(db.offerings, db.next) && UniqueIds(db.teachers, db.next) && ValidRows(snapshot)
    requires RepresentsTeaching(db, source, snapshot.offerings)
    ensures RepresentsTeaching(Trimmed(db, source, Surviving(snapshot)), source, KeepOfferings(snapshot.offerings))
  {
    var s := Surviving(snapshot);
    var r := Trimmed(db, source, s);
    forall o, t | (source, o) in r.offerings && (source, t) in r.teachers
      ensures (r.offerings[(source, o)].id, r.teachers[(source, t)].id) in r.teaching <==> Teaches(s.offerings, o, t)
    {
      RelationsOfKept(db, source, s, (source, o), (source, t));
      assert (source, o).1 == o && (source, t).1 == t;
      var offering := KnownKeptIsKnown(snapshot.offerings, o);
      KeptItems(s.teachers, t);
      TeachesKept(snapshot.offerings, offering, t);
    }
  }

  lemma SlotsOfKept(db: Db, source: int, s: Snapshot, k: Key)
    requires UniqueIds(db.offerings, db.next) && k in db.offerings && k !in Lost(db, source, s)
    ensures SlotsAt(Trimmed(db, source, s).schedules, db.offerings[k].id) == SlotsAt(db.schedules, db.offerings[k].id)
  {
    KeptIdStays(db, source, s, k);
  }

  lemma SlotsAreLeft(db: Db, source: int, snapshot: Snapshot)
    requires UniqueIds(db.offerings, db.next) && RepresentsSlots(db, source, snapshot.offerings)
    ensures RepresentsSlots(Trimmed(db, source, Surviving(snapshot)), source, KeepOfferings(snapshot.offerings))
  {
    var s := Surviving(snapshot);
    var r := Trimmed(db, source, s);
    KeepOfferingsMeans(snapshot.offerings);
    forall i | 0 <= i < |s.offerings| && (source, s.offerings[i].externalId) in r.offerings
      ensures SlotsAt(r.schedules, r.offerings[(source, s.offerings[i].externalId)].id) == multiset(s.offerings[i].slots)
    {
      assert s.offerings[i] in s.offerings;
      var o :| o in snapshot.offerings && OfferingSurvives(o) && s.offerings[i] == o.(teachers := KeepIds(o.teachers));
      var j :| 0 <= j < |snapshot.offerings| && snapshot.offerings[j] == o;
      assert (source, snapshot.offerings[j].externalId) in db.offerings;
      SlotsOfKept(db, source, s, (source, s.offerings[i].externalId));
    }
  }

  lemma MemberOfKept(db: Db, source: int, s: Snapshot, m: ImportMember, k: MemberKey)
    requires UniqueIds(db.offerings, db.next) && IsMember(db, source, m, k)
    ensures IsMember(Trimmed(db, source, s), source, m, k) <==> KnowsOffering(s.offerings, m.offering)
    ensures k in Trimmed(db, source, s).members <==> k in db.members && KnowsOffering(s.offerings, m.offering)
    ensures k in Trimmed(db, source, s).members ==> Trimmed(db, source, s).members[k] == db.members[k]
  {
    KeptIdStays(db, source, s, (source, m.offering));
    assert (source, m.offering).1 == m.offering;
  }

  lemma SurvivingMemberIsLeft(db: Db, source: int, job: int, snapshot: Snapshot, m: ImportMember)
    requires UniqueIds(db.offerings, db.next) && RepresentsMembers(db, source, job, snapshot.members)
    requires m in Surviving(snapshot).members
    ensures HasMember(Trimmed(db, source, Surviving(snapshot)), source, job, m)
  {
    var s := Surviving(snapshot);
    KeepMembersMeans(s.offerings, snapshot.members);
    var j :| 0 <= j < |snapshot.members| && snapshot.members[j] == m;
    assert HasMember(db, source, job, snapshot.members[j]);
    var k :| IsMember(db, source, m, k) && k in db.members && db.members[k] == Member(job, m.student);
    MemberOfKept(db, source, s, m, k);
  }

  lemma LeftMemberSurvives(db: Db, source: int, job: int, snapshot: Snapshot, k: MemberKey)
    requires UniqueIds(db.offerings, db.next) && RepresentsMembers(db, source, job, snapshot.members)
    requires k in Trimmed(db, source, Surviving(snapshot)).members && k.source == source
    ensures var s := Surviving(snapshot);
      exists i :: 0 <= i < |s.members| && IsMember(Trimmed(db, source, s), source, s.members[i], k)
  {
    var s := Surviving(snapshot);
    KeepMembersMeans(s.offerings, snapshot.members);
    var j :| 0 <= j < |snapshot.members| && IsMember(db, source, snapshot.members[j], k);
    MemberOfKept(db, source, s, snapshot.members[j], k);
    assert snapshot.members[j] in s.members;
    var i :| 0 <= i < |s.members| && s.members[i] == snapshot.members[j];
  }

  lemma MembersAreLeft(db: Db, source: int, job: int, snapshot: Snapshot)
    requires UniqueIds(db.offerings, db.next) && RepresentsMembers(db, source, job, snapshot.members)
    ensures RepresentsMembers(Trimmed(db, source, Surviving(snapshot)), source, job, Surviving(snapshot).members)
  {
    var s := Surviving(snapshot);
    var r := Trimmed(db, source, s);
    forall i | 0 <= i < |s.members|
      ensures HasMember(r, source, job, s.members[i])
    {
      SurvivingMemberIsLeft(db, source, job, snapshot, s.members[i]);
    }
    forall k | k in r.members && k.source == source
      ensures exists i :: 0 <= i < |s.members| && IsMember(r, source, s.members[i], k)
    {
      LeftMemberSurvives(db, source, job, snapshot, k);
    }
  }

  lemma TrimmedRepresents(db: Db, source: int, job: int, snapshot: Snapshot)
    requires UniqueIds(db.offerings, db.next) && UniqueIds(db.teachers, db.next) && ValidRows(snapshot)
    requires Related(db, source, job, snapshot)
    ensures Represents(Trimmed(db, source, Surviving(snapshot)), source, job, Surviving(snapshot))
  {
    KeptRepresent(db.terms, source, job, snapshot.terms);
    KeptRepresent(db.courses, source, job, snapshot.courses);
    KeptRepresent(db.teachers, source, job, snapshot.teachers);
    OfferingsAreLeft(db, source, job, snapshot);
    TeachingIsLeft(db, source, snapshot);
    SlotsAreLeft(db, source, snapshot);
    MembersAreLeft(db, source, job, snapshot);
  }

  /** After the import of any valid snapshot, the source's rows are what survives of it. */
  lemma ImportRepresentsSurvivors(db: Db, job: int, source: int, snapshot: Snapshot)
    requires Integrity(db) && ValidSnapshot(snapshot)
    ensures Imported(db, job, source, snapshot).Some? ==>
      Represents(Imported(db, job, source, snapshot).value, source, job, Surviving(snapshot))
  {
    if Imported(db, job, source, snapshot).Some? {
      var before := BeforePruning(db, job, source, snapshot).value;
      BeforePruningIsRelated(db, job, source, snapshot);
      PruningTrims(before, source, job, snapshot);
      TrimmedRepresents(before, source, job, snapshot);
    }
  }

  /** The source's rows are the whole snapshot exactly when no external id is empty. */
  lemma ImportRepresentsIff(db: Db, job: int, source: int, snapshot: Snapshot)
    requires Integrity(db) && ValidSnapshot(snapshot)
    ensures Imported(db, job, source, snapshot).Some? ==>
      (Represents(Imported(db, job, source, snapshot).value, source, job, snapshot) <==> NoEmptyIds(snapshot))
  {
    if Imported(db, job, source, snapshot).Some? {
      var before := BeforePruning(db, job, source, snapshot).value;
      var after := Imported(db, job, source, snapshot).value;
      ImportRepresentsSurvivors(db, job, source, snapshot);
      if NoEmptyIds(snapshot) {
        NothingIsDropped(snapshot);
      }
      if Represents(after, source, job, snapshot) {
        PruningDropsEmptyIds(before, source, snapshot);
        EmptyIdsAreNotRepresented(after, source, job, snapshot);
      }
    }
  }
  // ---- memberships, field by field ----

  ghost predicate IsRowOf(db: Db, source: int, m: ImportMember, k: MemberKey) {
    && m.user == k.user && m.role == k.role
    && (source, m.offering) in db.offerings && db.offerings[(source, m.offering)].id == k.offering
  }

  /** A source's memberships are those of the list: each row has the user, the role and the student of its own, under
      the surrogate key of its offering. */
  lemma MembersMean(db: Db, source: int, job: int, members: seq<ImportMember>)
    requires RepresentsMembers(db, source, job, members)
    ensures forall m | m in members ::
      && (source, m.offering) in db.offerings
      && var k := MemberKey(source, db.offerings[(source, m.offering)].id, m.user, m.role);
           k in db.members && db.members[k] == Member(job, m.student)
    ensures forall k | k in db.members && k.source == source ::
      exists m :: m in members && IsRowOf(db, source, m, k)
  {
    forall m | m in members
      ensures (source, m.offering) in db.offerings
      ensures var k := MemberKey(source, db.offerings[(source, m.offering)].id, m.user, m.role);
        k in db.members && db.members[k] == Member(job, m.student)
    {
      var i :| 0 <= i < |members| && members[i] == m;
      assert HasMember(db, source, job, members[i]);
    }
    forall k | k in db.members && k.source == source
      ensures exists m :: m in members && IsRowOf(db, source, m, k)
    {
      var i :| 0 <= i < |members| && IsMember(db, source, members[i], k);
      assert members[i] in members;
    }
  }

  // ---- instances ----

  const EMPTY := Db(map[], map[], map[], map[], {}, map[], map[], 0)
  const NAMELESS := Snapshot([Item("", [], true)], [], [], [], [])

  lemma NamelessIsLoaded(job: int, source: int)
    ensures AfterUpserts(EMPTY, job, source, NAMELESS) == EMPTY.(terms := map[(source, "") := Row(0, job, [])], next := 1)
  {
    assert NAMELESS.terms[1..] == [];
    assert Upsert(EMPTY.terms, 0, source, job, NAMELESS.terms) == map[(source, "") := Row(0, job, [])];
  }

  lemma NamelessIsImported(job: int, source: int)
    ensures Imported(EMPTY, job, source, NAMELESS) == Some(EMPTY.(next := 1))
  {
    NamelessIsLoaded(job, source);
    var d := EMPTY.(terms := map[(source, "") := Row(0, job, [])], next := 1);
    assert AfterRelations(d, source, NAMELESS) == d;
    assert AfterMembers(d, job, source, NAMELESS) == Some(d);
    assert AfterPruning(d, source, NAMELESS) == EMPTY.(next := 1);
  }

  /** One term with an empty external id: the schema allows it, the import succeeds, and the term is gone. */
  lemma NamelessTermIsLost(job: int, source: int)
    ensures Integrity(EMPTY) && ValidSnapshot(NAMELESS) && !NoEmptyIds(NAMELESS)
    ensures Imported(EMPTY, job, source, NAMELESS) == Some(EMPTY.(next := 1))
    ensures !Represents(EMPTY.(next := 1), source, job, NAMELESS)
  {
    assert NAMELESS.terms[0].externalId == "";
    NamelessIsImported(job, source);
    ImportRepresentsIff(EMPTY, job, source, NAMELESS);
  }
}
