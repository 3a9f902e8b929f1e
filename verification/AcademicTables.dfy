/** The six related tables of the academic read model, the effect of each SQL statement of an import
    on them (cascading deletes included), and the integrity constraints between them. */
module AcademicTables {
  import opened Options

  /** A row is addressed by its UNIQUE (source_id, external_id). */
  type Key = (int, string)

  /** `id` is the surrogate key other tables refer to. */
  datatype Row<A> = Row(id: int, job: int, data: A)

  type Table<A> = map<Key, Row<A>>

  type Attributes = seq<Option<string>>

  datatype Offering = Offering(term: int, course: int, attributes: Attributes)

  datatype Slot = Slot(weekday: int, startPeriod: int, endPeriod: int, place: Attributes)

  /** UNIQUE (source_id, offering_id, external_user_id, role). */
  datatype MemberKey = MemberKey(source: int, offering: int, user: string, role: string)

  datatype Member = Member(job: int, student: Option<string>)

  /** Schedule rows are grouped by offering; their own row identifiers carry no information. */
  datatype Db = Db(
    terms: Table<Attributes>,
    courses: Table<Attributes>,
    teachers: Table<Attributes>,
    offerings: Table<Offering>,
    teaching: set<(int, int)>,
    schedules: map<int, multiset<Slot>>,
    members: map<MemberKey, Member>,
    next: int
  )

  // ---- integrity ----

  ghost predicate UniqueIds<A>(t: Table<A>, next: int) {
    && (forall k | k in t :: t[k].id < next)
    && (forall k, l | k in t && l in t && t[k].id == t[l].id :: k == l)
  }

  ghost predicate HasId<A>(t: Table<A>, source: int, id: int) {
    exists k :: k in t && k.0 == source && t[k].id == id
  }

  ghost predicate OfferingsRefer(offerings: Table<Offering>, terms: Table<Attributes>, courses: Table<Attributes>) {
    forall k | k in offerings :: HasId(terms, k.0, offerings[k].data.term) && HasId(courses, k.0, offerings[k].data.course)
  }

  ghost predicate TeachingRefers(teaching: set<(int, int)>, offerings: Table<Offering>, teachers: Table<Attributes>) {
    forall p | p in teaching :: exists s :: HasId(offerings, s, p.0) && HasId(teachers, s, p.1)
  }

  ghost predicate SchedulesRefer(schedules: map<int, multiset<Slot>>, offerings: Table<Offering>) {
    forall o | o in schedules :: exists s :: HasId(offerings, s, o)
  }

  ghost predicate MembersRefer(members: map<MemberKey, Member>, offerings: Table<Offering>) {
    forall m | m in members :: HasId(offerings, m.source, m.offering)
  }

  /** Surrogate keys are unique, and no row points at a missing row or into another source. */
  ghost predicate Integrity(db: Db) {
    && UniqueIds(db.terms, db.next) && UniqueIds(db.courses, db.next)
    && UniqueIds(db.teachers, db.next) && UniqueIds(db.offerings, db.next)
    && OfferingsRefer(db.offerings, db.terms, db.courses)
    && TeachingRefers(db.teaching, db.offerings, db.teachers)
    && SchedulesRefer(db.schedules, db.offerings)
    && MembersRefer(db.members, db.offerings)
  }

  // ---- upsert ----

  /** `fits` is whether every value of the input row can be read as its column's type: dates are dates, numbers
      in range, texts free of NUL. */
  datatype Item<A> = Item(externalId: string, data: A, fits: bool)

  predicate AllFit<A>(items: seq<Item<A>>) {
    forall i | 0 <= i < |items| :: items[i].fits
  }

  predicate DistinctIds<A>(items: seq<Item<A>>) {
    forall i, j | 0 <= i < j < |items| :: items[i].externalId != items[j].externalId
  }

  /** INSERT ... ON CONFLICT (source_id, external_id) DO UPDATE: a known key keeps its surrogate key. */
  function Upsert<A>(t: Table<A>, next: int, source: int, job: int, items: seq<Item<A>>): Table<A>
    decreases |items|
  {
    if items == [] then t
    else
      var k := (source, items[0].externalId);
      Upsert(t[k := Row(if k in t then t[k].id else next, job, items[0].data)], next + 1, source, job, items[1..])
  }

  lemma {:induction false} UpsertAt<A>(t: Table<A>, next: int, source: int, job: int, items: seq<Item<A>>, i: nat)
    requires DistinctIds(items) && i < |items|
    ensures var k, r := (source, items[i].externalId), Upsert(t, next, source, job, items);
      k in r && r[k] == Row(if k in t then t[k].id else next + i, job, items[i].data)
    decreases |items|
  {
    var k := (source, items[0].externalId);
    var t' := t[k := Row(if k in t then t[k].id else next, job, items[0].data)];
    if i == 0 {
      UpsertElsewhere(t', next + 1, source, job, items[1..], k);
    } else {
      UpsertAt(t', next + 1, source, job, items[1..], i - 1);
    }
  }

  lemma {:induction false} UpsertElsewhere<A>(t: Table<A>, next: int, source: int, job: int, items: seq<Item<A>>, k: Key)
    requires k.0 != source || forall i | 0 <= i < |items| :: items[i].externalId != k.1
    ensures var r := Upsert(t, next, source, job, items);
      (k in r <==> k in t) && (k in t ==> r[k] == t[k])
    decreases |items|
  {
    if items != [] {
      var k0 := (source, items[0].externalId);
      UpsertElsewhere(t[k0 := Row(if k0 in t then t[k0].id else next, job, items[0].data)], next + 1, source, job, items[1..], k);
    }
  }

  lemma {:induction false} UpsertUniqueIds<A>(t: Table<A>, next: int, source: int, job: int, items: seq<Item<A>>)
    requires UniqueIds(t, next)
    ensures UniqueIds(Upsert(t, next, source, job, items), next + |items|)
    ensures forall k | k in t :: k in Upsert(t, next, source, job, items) && Upsert(t, next, source, job, items)[k].id == t[k].id
    decreases |items|
  {
    if items != [] {
      var k := (source, items[0].externalId);
      var t' := t[k := Row(if k in t then t[k].id else next, job, items[0].data)];
      UpsertUniqueIds(t', next + 1, source, job, items[1..]);
    }
  }

  lemma KeptIdsStillFound<A>(t: Table<A>, r: Table<A>)
    requires forall k | k in t :: k in r && r[k].id == t[k].id
    ensures forall s, id | HasId(t, s, id) :: HasId(r, s, id)
  {
  }

  // ---- deletes, with ON DELETE CASCADE ----

  function Ids<A>(t: Table<A>, keys: set<Key>): set<int> {
    set k | k in t && k in keys :: t[k].id
  }

  function SourceKeys<A>(t: Table<A>, source: int): set<Key> {
    set k | k in t && k.0 == source
  }

  function DeleteOfferings(db: Db, keys: set<Key>): Db {
    var gone := Ids(db.offerings, keys);
    db.(
      offerings := db.offerings - keys,
      teaching := (set p | p in db.teaching && p.0 !in gone),
      schedules := (map o | o in db.schedules && o !in gone :: db.schedules[o]),
      members := (map m | m in db.members && m.offering !in gone :: db.members[m]))
  }

  function DeleteTerms(db: Db, keys: set<Key>): Db {
    var gone := Ids(db.terms, keys);
    DeleteOfferings(db.(terms := db.terms - keys), set k | k in db.offerings && db.offerings[k].data.term in gone)
  }

  function DeleteCourses(db: Db, keys: set<Key>): Db {
    var gone := Ids(db.courses, keys);
    DeleteOfferings(db.(courses := db.courses - keys), set k | k in db.offerings && db.offerings[k].data.course in gone)
  }

  function DeleteTeachers(db: Db, keys: set<Key>): Db {
    var gone := Ids(db.teachers, keys);
    db.(teachers := db.teachers - keys, teaching := (set p | p in db.teaching && p.1 !in gone))
  }

  /** A surrogate key that was not deleted is still found. */
  lemma FoundUnlessDeleted<A>(t: Table<A>, keys: set<Key>, source: int, id: int)
    requires HasId(t, source, id) && id !in Ids(t, keys)
    ensures HasId(t - keys, source, id)
  {
  }

  lemma DeleteOfferingsKeepsReferences(db: Db, keys: set<Key>)
    requires TeachingRefers(db.teaching, db.offerings, db.teachers)
    requires SchedulesRefer(db.schedules, db.offerings) && MembersRefer(db.members, db.offerings)
    ensures var r := DeleteOfferings(db, keys);
      && TeachingRefers(r.teaching, r.offerings, r.teachers)
      && SchedulesRefer(r.schedules, r.offerings) && MembersRefer(r.members, r.offerings)
  {
    var r := DeleteOfferings(db, keys);
    forall p | p in r.teaching
      ensures exists s :: HasId(r.offerings, s, p.0) && HasId(r.teachers, s, p.1)
    {
      var s :| HasId(db.offerings, s, p.0) && HasId(db.teachers, s, p.1);
      FoundUnlessDeleted(db.offerings, keys, s, p.0);
    }
    forall o | o in r.schedules
      ensures exists s :: HasId(r.offerings, s, o)
    {
      var s :| HasId(db.offerings, s, o);
      FoundUnlessDeleted(db.offerings, keys, s, o);
    }
    forall m | m in r.members
      ensures HasId(r.offerings, m.source, m.offering)
    {
      FoundUnlessDeleted(db.offerings, keys, m.source, m.offering);
    }
  }

  lemma DeleteOfferingsKeepsIntegrity(db: Db, keys: set<Key>)
    requires Integrity(db)
    ensures Integrity(DeleteOfferings(db, keys))
  {
    DeleteOfferingsKeepsReferences(db, keys);
  }

  lemma DeleteTermsKeepsIntegrity(db: Db, keys: set<Key>)
    requires Integrity(db)
    ensures Integrity(DeleteTerms(db, keys))
  {
    var lost := set k | k in db.offerings && db.offerings[k].data.term in Ids(db.terms, keys);
    DeleteOfferingsKeepsReferences(db.(terms := db.terms - keys), lost);
    forall k | k in db.offerings - lost
      ensures HasId(db.terms - keys, k.0, db.offerings[k].data.term)
    {
      FoundUnlessDeleted(db.terms, keys, k.0, db.offerings[k].data.term);
    }
  }

  lemma DeleteCoursesKeepsIntegrity(db: Db, keys: set<Key>)
    requires Integrity(db)
    ensures Integrity(DeleteCourses(db, keys))
  {
    var lost := set k | k in db.offerings && db.offerings[k].data.course in Ids(db.courses, keys);
    DeleteOfferingsKeepsReferences(db.(courses := db.courses - keys), lost);
    forall k | k in db.offerings - lost
      ensures HasId(db.courses - keys, k.0, db.offerings[k].data.course)
    {
      FoundUnlessDeleted(db.courses, keys, k.0, db.offerings[k].data.course);
    }
  }

  lemma DeleteTeachersKeepsIntegrity(db: Db, keys: set<Key>)
    requires Integrity(db)
    ensures Integrity(DeleteTeachers(db, keys))
  {
    var r := DeleteTeachers(db, keys);
    forall p | p in r.teaching
      ensures exists s :: HasId(r.offerings, s, p.0) && HasId(r.teachers, s, p.1)
    {
      var s :| HasId(db.offerings, s, p.0) && HasId(db.teachers, s, p.1);
      FoundUnlessDeleted(db.teachers, keys, s, p.1);
    }
  }
}
