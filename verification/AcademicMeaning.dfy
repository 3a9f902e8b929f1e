/** What an import means: the source's rows are the snapshot, up to surrogate keys. */
module AcademicMeaning {
  import opened AcademicTables
  import opened AcademicImport

  // ---- the meaning of a snapshot, independent of statements ----

  ghost predicate RepresentsItems(t: Table<Attributes>, source: int, job: int, items: seq<Item<Attributes>>) {
    && (forall i | 0 <= i < |items| ::
          var k := (source, items[i].externalId);
          k in t && t[k].data == items[i].data && t[k].job == job)
    && (forall k | k in t && k.0 == source :: Knows(items, k.1))
  }

  ghost predicate RepresentsOffering(db: Db, source: int, job: int, o: ImportOffering) {
    var k := (source, o.externalId);
    && k in db.offerings && db.offerings[k].job == job
    && db.offerings[k].data.attributes == o.attributes
    && (source, o.term) in db.terms && db.offerings[k].data.term == db.terms[(source, o.term)].id
    && (source, o.course) in db.courses && db.offerings[k].data.course == db.courses[(source, o.course)].id
  }

  ghost predicate RepresentsOfferings(db: Db, source: int, job: int, offerings: seq<ImportOffering>) {
    && (forall i | 0 <= i < |offerings| :: RepresentsOffering(db, source, job, offerings[i]))
    && (forall k | k in db.offerings && k.0 == source :: KnowsOffering(offerings, k.1))
  }

  ghost predicate Teaches(offerings: seq<ImportOffering>, offering: string, teacher: string) {
    exists i :: 0 <= i < |offerings| && offerings[i].externalId == offering && teacher in offerings[i].teachers
  }

  ghost predicate RepresentsTeaching(db: Db, source: int, offerings: seq<ImportOffering>) {
    forall o, t | (source, o) in db.offerings && (source, t) in db.teachers ::
      (db.offerings[(source, o)].id, db.teachers[(source, t)].id) in db.teaching <==> Teaches(offerings, o, t)
  }

  ghost predicate RepresentsSlots(db: Db, source: int, offerings: seq<ImportOffering>) {
    forall i | 0 <= i < |offerings| && (source, offerings[i].externalId) in db.offerings ::
      SlotsAt(db.schedules, db.offerings[(source, offerings[i].externalId)].id) == multiset(offerings[i].slots)
  }

  ghost predicate IsMember(db: Db, source: int, m: ImportMember, k: MemberKey) {
    (source, m.offering) in db.offerings && k == MemberAt(db, source, m)
  }

  ghost predicate HasMember(db: Db, source: int, job: int, m: ImportMember) {
    exists k :: IsMember(db, source, m, k) && k in db.members && db.members[k] == Member(job, m.student)
  }

  ghost predicate RepresentsMembers(db: Db, source: int, job: int, members: seq<ImportMember>) {
    && (forall i | 0 <= i < |members| ::
          HasMember(db, source, job, members[i]))
    && (forall k | k in db.members && k.source == source :: exists i :: 0 <= i < |members| && IsMember(db, source, members[i], k))
  }

  ghost predicate Represents(db: Db, source: int, job: int, snapshot: Snapshot) {
    && RepresentsItems(db.terms, source, job, snapshot.terms)
    && RepresentsItems(db.courses, source, job, snapshot.courses)
    && RepresentsItems(db.teachers, source, job, snapshot.teachers)
    && RepresentsOfferings(db, source, job, snapshot.offerings)
    && RepresentsTeaching(db, source, snapshot.offerings)
    && RepresentsSlots(db, source, snapshot.offerings)
    && RepresentsMembers(db, source, job, snapshot.members)
  }

  /** Every row of every other source is exactly as before. */
  ghost predicate OthersUntouched(before: Db, after: Db, source: int) {
    && SameElsewhere(before.terms, after.terms, source)
    && SameElsewhere(before.courses, after.courses, source)
    && SameElsewhere(before.teachers, after.teachers, source)
    && SameElsewhere(before.offerings, after.offerings, source)
    && (forall k, t | k in before.offerings && k.0 != source ::
          (before.offerings[k].id, t) in before.teaching <==> (before.offerings[k].id, t) in after.teaching)
    && (forall k | k in before.offerings && k.0 != source ::
          SlotsAt(before.schedules, before.offerings[k].id) == SlotsAt(after.schedules, before.offerings[k].id))
    && (forall m: MemberKey | m.source != source ::
          (m in before.members <==> m in after.members) && (m in before.members ==> before.members[m] == after.members[m]))
  }

  ghost predicate SameElsewhere<A>(before: Table<A>, after: Table<A>, source: int) {
    forall k: Key | k.0 != source :: (k in before <==> k in after) && (k in before ==> before[k] == after[k])
  }
}
