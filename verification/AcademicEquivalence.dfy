/** An import is "clear the source, insert the snapshot" up to surrogate keys, and doing it twice
    changes nothing but job numbers. */
module AcademicEquivalence {
  import opened Options
  import opened AcademicTables
  import opened AcademicImport
  import opened AcademicIntegrity
  import opened AcademicMeaning
  import opened AcademicIsolation
  import opened AcademicRefinement
  import opened AcademicSurvivors
  import opened AcademicOutcome

  // ---- every valid snapshot is imported ----

  lemma MembersInsert(db: Db, job: int, source: int, snapshot: Snapshot)
    requires UniqueIds(db.offerings, db.next) && ValidMembers(snapshot)
    requires forall id | KnowsOffering(snapshot.offerings, id) :: (source, id) in db.offerings
    ensures AfterMembers(db, job, source, snapshot).Some?
  {
    var d := ClearMembers(db, source);
    InsertMembersIff(d, source, job, snapshot.members);
    forall i | 0 <= i < |snapshot.members|
      ensures MemberFits(snapshot.members[i])
    {
      assert snapshot.members[i] in snapshot.members;
    }
  }

  lemma ImportSucceeds(db: Db, job: int, source: int, snapshot: Snapshot)
    requires Integrity(db) && ValidSnapshot(snapshot)
    ensures Imported(db, job, source, snapshot).Some?
  {
    var d1 := AfterUpserts(db, job, source, snapshot);
    AfterUpsertsKeepsIntegrity(db, job, source, snapshot);
    UpsertsLoadAll(db, job, source, snapshot);
    OfferingsKnown(d1, source, job, snapshot);
    RelationsKeepRows(d1, source, snapshot);
    MembersInsert(AfterRelations(d1, source, snapshot), job, source, snapshot);
  }

  lemma RelationsKeepRows(db: Db, source: int, snapshot: Snapshot)
    ensures var r := AfterRelations(db, source, snapshot); r == db.(teaching := r.teaching, schedules := r.schedules)
  {
    InsertSlotsOnlySchedules(InsertTeaching(ClearSchedules(ClearTeaching(db, source), source), source, TeacherRows(snapshot.offerings)),
      source, SlotRows(snapshot.offerings));
  }

  // ---- equality up to surrogate keys ----

  ghost predicate SameItems(a: Table<Attributes>, b: Table<Attributes>, source: int) {
    forall k: Key | k.0 == source :: (k in a <==> k in b) && (k in a ==> a[k].data == b[k].data)
  }

  /** Both rows carry the same attributes and point at the same term and course, by external id. */
  ghost predicate SameOffering(a: Db, b: Db, source: int, k: Key, term: string, course: string)
    requires k in a.offerings && k in b.offerings
  {
    var t, c := (source, term), (source, course);
    && a.offerings[k].data.attributes == b.offerings[k].data.attributes
    && t in a.terms && t in b.terms && c in a.courses && c in b.courses
    && a.offerings[k].data.term == a.terms[t].id && b.offerings[k].data.term == b.terms[t].id
    && a.offerings[k].data.course == a.courses[c].id && b.offerings[k].data.course == b.courses[c].id
  }

  ghost predicate SameOfferings(a: Db, b: Db, source: int) {
    forall k: Key | k.0 == source ::
      (k in a.offerings <==> k in b.offerings) && (k in a.offerings ==> exists t, c :: SameOffering(a, b, source, k, t, c))
  }

  ghost predicate SameTeaching(a: Db, b: Db, source: int) {
    forall o, t | (source, o) in a.offerings && (source, o) in b.offerings && (source, t) in a.teachers && (source, t) in b.teachers ::
      (a.offerings[(source, o)].id, a.teachers[(source, t)].id) in a.teaching <==>
      (b.offerings[(source, o)].id, b.teachers[(source, t)].id) in b.teaching
  }

  ghost predicate SameSlots(a: Db, b: Db, source: int) {
    forall k: Key | k.0 == source && k in a.offerings && k in b.offerings ::
      SlotsAt(a.schedules, a.offerings[k].id) == SlotsAt(b.schedules, b.offerings[k].id)
  }

  ghost predicate SameMembership(a: Db, b: Db, source: int, k: Key, user: string, role: string)
    requires k in a.offerings && k in b.offerings
  {
    var x, y := MemberKey(source, a.offerings[k].id, user, role), MemberKey(source, b.offerings[k].id, user, role);
    (x in a.members <==> y in b.members) && (x in a.members ==> a.members[x].student == b.members[y].student)
  }

  ghost predicate SameMembers(a: Db, b: Db, source: int) {
    forall k: Key, user, role | k.0 == source && k in a.offerings && k in b.offerings :: SameMembership(a, b, source, k, user, role)
  }

  /** One source's rows in two databases, compared by external ids. */
  ghost predicate SameUpToIds(a: Db, b: Db, source: int) {
    && SameItems(a.terms, b.terms, source) && SameItems(a.courses, b.courses, source) && SameItems(a.teachers, b.teachers, source)
    && SameOfferings(a, b, source) && SameTeaching(a, b, source) && SameSlots(a, b, source) && SameMembers(a, b, source)
  }

  lemma RepresentedItemsAgree(a: Table<Attributes>, b: Table<Attributes>, source: int, i: int, j: int, items: seq<Item<Attributes>>)
    requires RepresentsItems(a, source, i, items) && RepresentsItems(b, source, j, items)
    ensures SameItems(a, b, source)
  {
  }

  lemma RepresentedOfferingsAgree(a: Db, b: Db, source: int, i: int, j: int, offerings: seq<ImportOffering>)
    requires RepresentsOfferings(a, source, i, offerings) && RepresentsOfferings(b, source, j, offerings)
    ensures SameOfferings(a, b, source)
  {
    forall k: Key | k.0 == source
      ensures (k in a.offerings <==> k in b.offerings) && (k in a.offerings ==> exists t, c :: SameOffering(a, b, source, k, t, c))
    {
      if KnowsOffering(offerings, k.1) {
        var n :| 0 <= n < |offerings| && offerings[n].externalId == k.1;
        assert k == (source, offerings[n].externalId);
        assert RepresentsOffering(a, source, i, offerings[n]) && RepresentsOffering(b, source, j, offerings[n]);
        assert SameOffering(a, b, source, k, offerings[n].term, offerings[n].course);
      }
    }
  }

  lemma RepresentedSlotsAgree(a: Db, b: Db, source: int, offerings: seq<ImportOffering>)
    requires RepresentsSlots(a, source, offerings) && RepresentsSlots(b, source, offerings)
    requires forall k | k in a.offerings && k.0 == source :: KnowsOffering(offerings, k.1)
    ensures SameSlots(a, b, source)
  {
  }

  lemma RepresentedMembersAgree(a: Db, b: Db, source: int, i: int, j: int, members: seq<ImportMember>)
    requires UniqueIds(a.offerings, a.next) && RepresentsMembers(a, source, i, members)
    requires UniqueIds(b.offerings, b.next) && RepresentsMembers(b, source, j, members)
    requires DistinctMembers(members)
    ensures SameMembers(a, b, source)
  {
  }

  lemma RepresentedTeachingAgrees(a: Db, b: Db, source: int, offerings: seq<ImportOffering>)
    requires RepresentsTeaching(a, source, offerings) && RepresentsTeaching(b, source, offerings)
    ensures SameTeaching(a, b, source)
  {
  }

  /** A snapshot determines its source's rows up to surrogate keys. */
  lemma RepresentationIsUnique(a: Db, b: Db, source: int, i: int, j: int, snapshot: Snapshot)
    requires UniqueIds(a.offerings, a.next) && UniqueIds(b.offerings, b.next) && ValidMembers(snapshot)
    requires Represents(a, source, i, snapshot) && Represents(b, source, j, snapshot)
    ensures SameUpToIds(a, b, source)
  {
    RepresentedItemsAgree(a.terms, b.terms, source, i, j, snapshot.terms);
    RepresentedItemsAgree(a.courses, b.courses, source, i, j, snapshot.courses);
    RepresentedItemsAgree(a.teachers, b.teachers, source, i, j, snapshot.teachers);
    RepresentedOfferingsAgree(a, b, source, i, j, snapshot.offerings);
    RepresentedTeachingAgrees(a, b, source, snapshot.offerings);
    RepresentedSlotsAgree(a, b, source, snapshot.offerings);
    RepresentedMembersAgree(a, b, source, i, j, snapshot.members);
  }

  // ---- clear the source, insert the snapshot ----

  /** Delete every row of the source. */
  function Cleared(db: Db, source: int): Db {
    var d1 := DeleteTerms(db, SourceKeys(db.terms, source));
    var d2 := DeleteCourses(d1, SourceKeys(d1.courses, source));
    DeleteTeachers(d2, SourceKeys(d2.teachers, source))
  }

  lemma ClearingKeepsIntegrity(db: Db, source: int)
    requires Integrity(db)
    ensures Integrity(Cleared(db, source)) && OthersUntouched(db, Cleared(db, source), source)
  {
    var d1 := DeleteTerms(db, SourceKeys(db.terms, source));
    var d2 := DeleteCourses(d1, SourceKeys(d1.courses, source));
    DeleteTermsKeepsIntegrity(db, SourceKeys(db.terms, source));
    DeleteCoursesKeepsIntegrity(d1, SourceKeys(d1.courses, source));
    DeleteTeachersKeepsIntegrity(d2, SourceKeys(d2.teachers, source));
    DeleteTermsLeavesOthers(db, source, SourceKeys(db.terms, source));
    DeleteCoursesLeavesOthers(d1, source, SourceKeys(d1.courses, source));
    DeleteTeachersLeavesOthers(d2, source, SourceKeys(d2.teachers, source));
    OthersUntouchedIsTransitive(db, d1, d2, source);
    OthersUntouchedIsTransitive(db, d2, Cleared(db, source), source);
  }

  /** Every offering of the source refers to one of its terms, so it goes with them, and with it its teacher
      relations and schedules. */
  lemma ClearingTermsClearsOfferings(db: Db, source: int)
    requires Integrity(db)
    ensures var r := DeleteTerms(db, SourceKeys(db.terms, source));
      var gone := Ids(db.offerings, SourceKeys(db.offerings, source));
      && (forall k | k in r.offerings :: k.0 != source)
      && (forall p | p in r.teaching :: p.0 !in gone)
      && (forall o | o in r.schedules :: o !in gone)
      && (forall m | m in r.members :: m.source != source)
  {
    var lost := set k | k in db.offerings && db.offerings[k].data.term in Ids(db.terms, SourceKeys(db.terms, source));
    forall k | k in db.offerings && k.0 == source
      ensures k in lost && db.offerings[k].id in Ids(db.offerings, lost)
    {
      assert HasId(db.terms, k.0, db.offerings[k].data.term);
    }
    forall m | m in db.members && m.source == source
      ensures m.offering in Ids(db.offerings, lost)
    {
      assert HasId(db.offerings, m.source, m.offering);
    }
  }

  /** Nothing of the source is left in any of the six tables. */
  lemma ClearingClears(db: Db, source: int)
    requires Integrity(db)
    ensures var r := Cleared(db, source);
      var offerings, teachers := Ids(db.offerings, SourceKeys(db.offerings, source)), Ids(db.teachers, SourceKeys(db.teachers, source));
      && (forall k | k in r.terms || k in r.courses || k in r.teachers || k in r.offerings :: k.0 != source)
      && (forall p | p in r.teaching :: p.0 !in offerings && p.1 !in teachers)
      && (forall o | o in r.schedules :: o !in offerings)
      && (forall m | m in r.members :: m.source != source)
  {
    ClearingTermsClearsOfferings(db, source);
  }

  /** The refinement: importing over the old rows leaves what importing into a cleared source would,
      up to surrogate keys, and the same rows of every other source. */
  lemma ImportRefinesClearAndInsert(db: Db, job: int, source: int, snapshot: Snapshot)
    requires Integrity(db) && ValidSnapshot(snapshot)
    ensures Imported(db, job, source, snapshot).Some? && Imported(Cleared(db, source), job, source, snapshot).Some?
    ensures var a, b := Imported(db, job, source, snapshot).value, Imported(Cleared(db, source), job, source, snapshot).value;
      SameUpToIds(a, b, source) && OthersUntouched(db, a, source) && OthersUntouched(db, b, source)
  {
    var cleared := Cleared(db, source);
    ClearingKeepsIntegrity(db, source);
    ImportSucceeds(db, job, source, snapshot);
    ImportSucceeds(cleared, job, source, snapshot);
    ImportRepresentsSurvivors(db, job, source, snapshot);
    ImportRepresentsSurvivors(cleared, job, source, snapshot);
    SurvivingMembersAreValid(snapshot);
    ImportKeepsIntegrity(db, job, source, snapshot);
    ImportKeepsIntegrity(cleared, job, source, snapshot);
    ImportLeavesOthers(db, job, source, snapshot);
    ImportLeavesOthers(cleared, job, source, snapshot);
    var a, b := Imported(db, job, source, snapshot).value, Imported(cleared, job, source, snapshot).value;
    RepresentationIsUnique(a, b, source, job, job, Surviving(snapshot));
    OthersUntouchedIsTransitive(db, cleared, b, source);
  }

  // ---- surrogate keys survive ----

  ghost predicate KeptIn<A>(a: Table<A>, b: Table<A>) {
    forall k | k in a && k in b :: b[k].id == a[k].id
  }

  ghost predicate KeptIds(a: Db, b: Db) {
    KeptIn(a.terms, b.terms) && KeptIn(a.courses, b.courses) && KeptIn(a.teachers, b.teachers) && KeptIn(a.offerings, b.offerings)
  }

  ghost predicate Contains<A>(a: Table<A>, b: Table<A>) {
    forall k | k in b :: k in a && a[k] == b[k]
  }

  ghost predicate Shrinks(a: Db, b: Db) {
    Contains(a.terms, b.terms) && Contains(a.courses, b.courses) && Contains(a.teachers, b.teachers) && Contains(a.offerings, b.offerings)
  }

  lemma PruningShrinks(db: Db, source: int, snapshot: Snapshot)
    ensures Shrinks(db, AfterPruning(db, source, snapshot))
  {
  }

  lemma UpsertsKeepIds(db: Db, job: int, source: int, snapshot: Snapshot)
    requires Integrity(db)
    ensures var r := AfterUpserts(db, job, source, snapshot);
      && KeptIds(db, r)
      && (forall k | k in db.terms :: k in r.terms) && (forall k | k in db.courses :: k in r.courses)
      && (forall k | k in db.teachers :: k in r.teachers) && (forall k | k in db.offerings :: k in r.offerings)
  {
    var d1 := UpsertTerms(db, job, source, snapshot.terms);
    var d2 := UpsertCourses(d1, job, source, snapshot.courses);
    var d3 := UpsertTeachers(d2, job, source, snapshot.teachers);
    UpsertUniqueIds(db.terms, db.next, source, job, snapshot.terms);
    UpsertUniqueIds(d1.courses, d1.next, source, job, snapshot.courses);
    UpsertUniqueIds(d2.teachers, d2.next, source, job, snapshot.teachers);
    UpsertUniqueIds(d3.offerings, d3.next, source, job, Joined(d3.terms, d3.courses, source, snapshot.offerings));
  }

  lemma {:induction false} InsertMembersOnlyMembers(db: Db, source: int, job: int, rows: seq<ImportMember>)
    requires InsertMembers(db, source, job, rows).Some?
    ensures var r := InsertMembers(db, source, job, rows).value; r == db.(members := r.members)
    decreases |rows|
  {
    if rows != [] {
      if (source, rows[0].offering) !in db.offerings {
        InsertMembersOnlyMembers(db, source, job, rows[1..]);
      } else {
        var k := MemberAt(db, source, rows[0]);
        InsertMembersOnlyMembers(db.(members := db.members[k := Member(job, rows[0].student)]), source, job, rows[1..]);
      }
    }
  }

  /** A row known before and after an import keeps its surrogate key, in all four tables. */
  lemma ImportKeepsIds(db: Db, job: int, source: int, snapshot: Snapshot)
    requires Integrity(db)
    ensures Imported(db, job, source, snapshot).Some? ==> KeptIds(db, Imported(db, job, source, snapshot).value)
  {
    if Imported(db, job, source, snapshot).Some? {
      var d1 := AfterUpserts(db, job, source, snapshot);
      var d2 := AfterRelations(d1, source, snapshot);
      var d3 := AfterMembers(d2, job, source, snapshot).value;
      UpsertsKeepIds(db, job, source, snapshot);
      RelationsKeepRows(d1, source, snapshot);
      InsertMembersOnlyMembers(ClearMembers(d2, source), source, job, snapshot.members);
      assert d3.terms == d1.terms && d3.courses == d1.courses && d3.teachers == d1.teachers && d3.offerings == d1.offerings;
      PruningShrinks(d3, source, snapshot);
    }
  }

  // ---- importing the same snapshot again ----

  ghost predicate SameRows<A>(a: Table<A>, b: Table<A>) {
    forall k :: (k in a <==> k in b) && (k in a ==> a[k].id == b[k].id && a[k].data == b[k].data)
  }

  /** Equal in everything but job numbers. */
  ghost predicate SameButJobs(a: Db, b: Db) {
    && SameRows(a.terms, b.terms) && SameRows(a.courses, b.courses) && SameRows(a.teachers, b.teachers) && SameRows(a.offerings, b.offerings)
    && (forall p :: p in a.teaching <==> p in b.teaching)
    && (forall o :: SlotsAt(a.schedules, o) == SlotsAt(b.schedules, o))
    && (forall m :: (m in a.members <==> m in b.members) && (m in a.members ==> a.members[m].student == b.members[m].student))
  }

  lemma ItemsAreSame(a: Table<Attributes>, b: Table<Attributes>, source: int)
    requires SameItems(a, b, source) && SameElsewhere(a, b, source) && KeptIn(a, b)
    ensures SameRows(a, b)
  {
  }

  lemma OfferingsAreSame(a: Db, b: Db, source: int)
    requires SameOfferings(a, b, source) && SameElsewhere(a.offerings, b.offerings, source) && KeptIds(a, b)
    ensures SameRows(a.offerings, b.offerings)
  {
  }

  lemma TeachingIsContained(a: Db, b: Db, source: int)
    requires TeachingRefers(a.teaching, a.offerings, a.teachers)
    requires SameRows(a.offerings, b.offerings) && SameRows(a.teachers, b.teachers) && SameTeaching(a, b, source)
    requires forall k, t | k in a.offerings && k.0 != source && (a.offerings[k].id, t) in a.teaching :: (a.offerings[k].id, t) in b.teaching
    ensures forall p | p in a.teaching :: p in b.teaching
  {
  }

  lemma SlotsAreSame(a: Db, b: Db, source: int)
    requires SchedulesRefer(a.schedules, a.offerings) && SchedulesRefer(b.schedules, b.offerings)
    requires SameRows(a.offerings, b.offerings) && SameSlots(a, b, source)
    requires forall k | k in a.offerings && k.0 != source :: SlotsAt(a.schedules, a.offerings[k].id) == SlotsAt(b.schedules, a.offerings[k].id)
    ensures forall o :: SlotsAt(a.schedules, o) == SlotsAt(b.schedules, o)
  {
  }

  lemma MembersAreSame(a: Db, b: Db, source: int)
    requires MembersRefer(a.members, a.offerings) && MembersRefer(b.members, b.offerings)
    requires SameRows(a.offerings, b.offerings) && SameMembers(a, b, source) && OthersUntouched(a, b, source)
    ensures forall m :: (m in a.members <==> m in b.members) && (m in a.members ==> a.members[m].student == b.members[m].student)
  {
    forall m
      ensures (m in a.members <==> m in b.members) && (m in a.members ==> a.members[m].student == b.members[m].student)
    {
      if m.source == source && (m in a.members || m in b.members) {
        var k :| k in a.offerings && k.0 == source && a.offerings[k].id == m.offering;
        assert SameMembership(a, b, source, k, m.user, m.role);
        assert m == MemberKey(source, a.offerings[k].id, m.user, m.role);
      }
    }
  }

  lemma TeachingIsSame(a: Db, b: Db, source: int)
    requires TeachingRefers(a.teaching, a.offerings, a.teachers) && TeachingRefers(b.teaching, b.offerings, b.teachers)
    requires SameRows(a.offerings, b.offerings) && SameRows(a.teachers, b.teachers)
    requires SameTeaching(a, b, source) && OthersUntouched(a, b, source)
    ensures forall p :: p in a.teaching <==> p in b.teaching
  {
    TeachingIsContained(a, b, source);
    TeachingIsContained(b, a, source);
  }

  lemma SameUpToKeptIds(a: Db, b: Db, source: int)
    requires Integrity(a) && Integrity(b) && SameUpToIds(a, b, source) && OthersUntouched(a, b, source) && KeptIds(a, b)
    ensures SameButJobs(a, b)
  {
    ItemsAreSame(a.terms, b.terms, source);
    ItemsAreSame(a.courses, b.courses, source);
    ItemsAreSame(a.teachers, b.teachers, source);
    OfferingsAreSame(a, b, source);
    TeachingIsSame(a, b, source);
    SlotsAreSame(a, b, source);
    MembersAreSame(a, b, source);
  }

  /** Importing the same snapshot again changes nothing but job numbers. */
  lemma ImportIsIdempotent(db: Db, job: int, again: int, source: int, snapshot: Snapshot)
    requires Integrity(db) && ValidSnapshot(snapshot)
    ensures Imported(db, job, source, snapshot).Some?
    ensures Imported(Imported(db, job, source, snapshot).value, again, source, snapshot).Some?
    ensures var once := Imported(db, job, source, snapshot).value;
      SameButJobs(once, Imported(once, again, source, snapshot).value)
  {
    ImportSucceeds(db, job, source, snapshot);
    var once := Imported(db, job, source, snapshot).value;
    ImportKeepsIntegrity(db, job, source, snapshot);
    ImportRepresentsSurvivors(db, job, source, snapshot);
    SurvivingMembersAreValid(snapshot);
    ImportSucceeds(once, again, source, snapshot);
    var twice := Imported(once, again, source, snapshot).value;
    ImportKeepsIntegrity(once, again, source, snapshot);
    ImportRepresentsSurvivors(once, again, source, snapshot);
    ImportKeepsIds(once, again, source, snapshot);
    ImportLeavesOthers(once, again, source, snapshot);
    RepresentationIsUnique(once, twice, source, job, again, Surviving(snapshot));
    SameUpToKeptIds(once, twice, source);
  }
  // ---- an instance ----

  /** One class of a single period, with an assistant and nobody else. */
  const ONE_CLASS := Snapshot(
    [Item("t", [], true)], [Item("c", [], true)], [],
    [ImportOffering("o", "t", "c", [], [], [Slot(7, 1, 1, [])], true)],
    [ImportMember("o", "u", None, "assistant")])

  lemma OneClassIsValid()
    ensures ValidSnapshot(ONE_CLASS) && NoEmptyIds(ONE_CLASS)
  {
    assert ONE_CLASS.terms[0].externalId == "t" && ONE_CLASS.courses[0].externalId == "c";
    assert ONE_CLASS.offerings[0].externalId == "o";
  }

  /** It is imported into any tables, whole. */
  lemma OneClassIsImported(db: Db, job: int, source: int)
    requires Integrity(db)
    ensures var after := Imported(db, job, source, ONE_CLASS);
      && after.Some? && Represents(after.value, source, job, ONE_CLASS)
      && (source, "o") in after.value.offerings
      && var id := after.value.offerings[(source, "o")].id;
        && SlotsAt(after.value.schedules, id) == multiset{Slot(7, 1, 1, [])}
        && MemberKey(source, id, "u", "assistant") in after.value.members
  {
    OneClassIsValid();
    ImportSucceeds(db, job, source, ONE_CLASS);
    ImportRepresentsIff(db, job, source, ONE_CLASS);
    OneClassIsRepresented(Imported(db, job, source, ONE_CLASS).value, source, job);
  }

  lemma OneClassIsRepresented(after: Db, source: int, job: int)
    requires Represents(after, source, job, ONE_CLASS)
    ensures (source, "o") in after.offerings
    ensures SlotsAt(after.schedules, after.offerings[(source, "o")].id) == multiset{Slot(7, 1, 1, [])}
    ensures MemberKey(source, after.offerings[(source, "o")].id, "u", "assistant") in after.members
  {
    assert RepresentsOffering(after, source, job, ONE_CLASS.offerings[0]);
    assert ONE_CLASS.offerings[0].slots == [Slot(7, 1, 1, [])];
    MembersMean(after, source, job, ONE_CLASS.members);
    assert ImportMember("o", "u", None, "assistant") in ONE_CLASS.members;
  }
}
