/** Replacing one source's snapshot inside a transaction. */
module AcademicImport {
  import opened Options
  import opened AcademicTables

  datatype ImportOffering = ImportOffering(
    externalId: string, term: string, course: string, attributes: Attributes, teachers: seq<string>, slots: seq<Slot>, fits: bool)

  datatype ImportMember = ImportMember(offering: string, user: string, student: Option<string>, role: string)

  datatype Snapshot = Snapshot(
    terms: seq<Item<Attributes>>,
    courses: seq<Item<Attributes>>,
    teachers: seq<Item<Attributes>>,
    offerings: seq<ImportOffering>,
    members: seq<ImportMember>)

  datatype ImportError = BadValue | DuplicateKey | UnknownReference | MappingMismatch | CheckViolation | CountMismatch

  // ---- what the database demands of a snapshot ----

  predicate Knows<A>(items: seq<Item<A>>, id: string) {
    exists i :: 0 <= i < |items| && items[i].externalId == id
  }

  predicate KnowsOffering(offerings: seq<ImportOffering>, id: string) {
    exists i :: 0 <= i < |offerings| && offerings[i].externalId == id
  }

  predicate DistinctOfferings(offerings: seq<ImportOffering>) {
    forall i, j | 0 <= i < j < |offerings| :: offerings[i].externalId != offerings[j].externalId
  }

  /** jsonb holds any text without NUL. */
  predicate IsText(s: string) {
    forall i | 0 <= i < |s| :: s[i] != '\0'
  }

  /** CHECK constraints of academic_schedules, and the texts. */
  predicate IsSlot(slot: Slot) {
    && 1 <= slot.weekday <= 7 && 1 <= slot.startPeriod <= slot.endPeriod
    && forall i | 0 <= i < |slot.place| && slot.place[i].Some? :: IsText(slot.place[i].value)
  }

  /** CHECK constraint of academic_memberships. */
  predicate IsRole(role: string) {
    role in {"student", "teacher", "assistant"}
  }

  predicate MemberFits(m: ImportMember) {
    IsRole(m.role) && IsText(m.user) && (m.student.Some? ==> IsText(m.student.value))
  }

  /** A day of the week from 1 to 7, a first period of at least 1 and a last one not before it; no text with NUL. */
  lemma SlotMeans(slot: Slot)
    ensures IsSlot(slot) <==>
      && slot.weekday in {1, 2, 3, 4, 5, 6, 7} && slot.startPeriod > 0 && slot.startPeriod <= slot.endPeriod
      && forall text | Some(text) in slot.place :: 0 as char !in text
  {
    if IsSlot(slot) {
      forall text | Some(text) in slot.place
        ensures 0 as char !in text
      {
        var i :| 0 <= i < |slot.place| && slot.place[i] == Some(text);
      }
    }
    if forall text | Some(text) in slot.place :: 0 as char !in text {
      forall i | 0 <= i < |slot.place| && slot.place[i].Some?
        ensures IsText(slot.place[i].value)
      {
        assert Some(slot.place[i].value) in slot.place;
      }
    }
  }

  lemma MemberFitsMeans(m: ImportMember)
    ensures MemberFits(m) <==>
      && (m.role == "student" || m.role == "teacher" || m.role == "assistant")
      && 0 as char !in m.user && (m.student.Some? ==> 0 as char !in m.student.value)
  {
  }

  predicate SameMember(a: ImportMember, b: ImportMember) {
    a.offering == b.offering && a.user == b.user && a.role == b.role
  }

  predicate DistinctMembers(members: seq<ImportMember>) {
    forall i, j | 0 <= i < j < |members| :: !SameMember(members[i], members[j])
  }

  predicate ValidRows(snapshot: Snapshot) {
    && AllFit(snapshot.terms) && AllFit(snapshot.courses) && AllFit(snapshot.teachers)
    && DistinctIds(snapshot.terms) && DistinctIds(snapshot.courses) && DistinctIds(snapshot.teachers)
    && DistinctOfferings(snapshot.offerings)
    && forall o | o in snapshot.offerings :: o.fits && Knows(snapshot.terms, o.term) && Knows(snapshot.courses, o.course)
  }

  predicate ValidRelations(snapshot: Snapshot) {
    forall o | o in snapshot.offerings ::
      (forall t | t in o.teachers :: Knows(snapshot.teachers, t)) && (forall slot | slot in o.slots :: IsSlot(slot))
  }

  predicate ValidMembers(snapshot: Snapshot) {
    && (forall m | m in snapshot.members :: KnowsOffering(snapshot.offerings, m.offering) && MemberFits(m))
    && DistinctMembers(snapshot.members)
  }

  predicate ValidSnapshot(snapshot: Snapshot) {
    ValidRows(snapshot) && ValidRelations(snapshot) && ValidMembers(snapshot)
  }

  // ---- the statements ----

  function UpsertTerms(db: Db, job: int, source: int, items: seq<Item<Attributes>>): Db {
    db.(terms := Upsert(db.terms, db.next, source, job, items), next := db.next + |items|)
  }

  function UpsertCourses(db: Db, job: int, source: int, items: seq<Item<Attributes>>): Db {
    db.(courses := Upsert(db.courses, db.next, source, job, items), next := db.next + |items|)
  }

  function UpsertTeachers(db: Db, job: int, source: int, items: seq<Item<Attributes>>): Db {
    db.(teachers := Upsert(db.teachers, db.next, source, job, items), next := db.next + |items|)
  }

  /** The inner joins that find the term and course of each offering. */
  function Joined(terms: Table<Attributes>, courses: Table<Attributes>, source: int, offerings: seq<ImportOffering>): seq<Item<Offering>> {
    if offerings == [] then []
    else
      var o := offerings[0];
      var rest := Joined(terms, courses, source, offerings[1..]);
      if (source, o.term) in terms && (source, o.course) in courses
      then [Item(o.externalId, Offering(terms[(source, o.term)].id, courses[(source, o.course)].id, o.attributes), o.fits)] + rest
      else rest
  }

  function UpsertOfferings(db: Db, job: int, source: int, offerings: seq<ImportOffering>): Db {
    var items := Joined(db.terms, db.courses, source, offerings);
    db.(offerings := Upsert(db.offerings, db.next, source, job, items), next := db.next + |items|)
  }

  function ClearTeaching(db: Db, source: int): Db {
    var ids := Ids(db.offerings, SourceKeys(db.offerings, source));
    db.(teaching := (set p | p in db.teaching && p.0 !in ids))
  }

  function ClearSchedules(db: Db, source: int): Db {
    var ids := Ids(db.offerings, SourceKeys(db.offerings, source));
    db.(schedules := (map o | o in db.schedules && o !in ids :: db.schedules[o]))
  }

  function ClearMembers(db: Db, source: int): Db {
    db.(members := (map m | m in db.members && m.source != source :: db.members[m]))
  }

  function TeacherRows(offerings: seq<ImportOffering>): seq<(string, string)> {
    if offerings == [] then []
    else TeacherRowsOf(offerings[0].externalId, offerings[0].teachers) + TeacherRows(offerings[1..])
  }

  function TeacherRowsOf(offering: string, teachers: seq<string>): seq<(string, string)> {
    seq(|teachers|, i requires 0 <= i < |teachers| => (offering, teachers[i]))
  }

  function SlotRows(offerings: seq<ImportOffering>): seq<(string, Slot)> {
    if offerings == [] then []
    else SlotRowsOf(offerings[0].externalId, offerings[0].slots) + SlotRows(offerings[1..])
  }

  function SlotRowsOf(offering: string, slots: seq<Slot>): seq<(string, Slot)> {
    seq(|slots|, i requires 0 <= i < |slots| => (offering, slots[i]))
  }

  /** INSERT ... SELECT DISTINCT with the joins on offering and teacher. */
  function InsertTeaching(db: Db, source: int, rows: seq<(string, string)>): Db {
    db.(teaching := db.teaching + set p | p in rows && (source, p.0) in db.offerings && (source, p.1) in db.teachers ::
      (db.offerings[(source, p.0)].id, db.teachers[(source, p.1)].id))
  }

  function SlotsAt(schedules: map<int, multiset<Slot>>, offering: int): multiset<Slot> {
    if offering in schedules then schedules[offering] else multiset{}
  }

  function InsertSlots(db: Db, source: int, rows: seq<(string, Slot)>): Db
    decreases |rows|
  {
    if rows == [] then db
    else
      var k := (source, rows[0].0);
      if k !in db.offerings then InsertSlots(db, source, rows[1..])
      else
        var id := db.offerings[k].id;
        InsertSlots(db.(schedules := db.schedules[id := SlotsAt(db.schedules, id) + multiset{rows[0].1}]), source, rows[1..])
  }

  function MemberAt(db: Db, source: int, m: ImportMember): MemberKey
    requires (source, m.offering) in db.offerings
  {
    MemberKey(source, db.offerings[(source, m.offering)].id, m.user, m.role)
  }

  /** None stands for a violated UNIQUE or CHECK constraint, or a value its column refuses. */
  function InsertMembers(db: Db, source: int, job: int, rows: seq<ImportMember>): Option<Db>
    decreases |rows|
  {
    if rows == [] then Some(db)
    else if (source, rows[0].offering) !in db.offerings then InsertMembers(db, source, job, rows[1..])
    else
      var k := MemberAt(db, source, rows[0]);
      if k in db.members || !MemberFits(rows[0]) then None
      else InsertMembers(db.(members := db.members[k := Member(job, rows[0].student)]), source, job, rows[1..])
  }

  /** RowsAffected of an insert that joins the offering. */
  function CountKnown(offerings: Table<Offering>, source: int, ids: seq<string>): nat {
    if ids == [] then 0
    else (if (source, ids[0]) in offerings then 1 else 0) + CountKnown(offerings, source, ids[1..])
  }

  /** The rows of the source whose external id is not in the list; the empty list needs its own
      statement but means the same. */
  function Stale<A>(t: Table<A>, source: int, kept: set<string>): set<Key> {
    set k | k in t && k.0 == source && k.1 !in kept
  }

  // ---- the whole import, statement by statement ----

  function AfterUpserts(db: Db, job: int, source: int, snapshot: Snapshot): Db {
    var d1 := UpsertTerms(db, job, source, snapshot.terms);
    var d2 := UpsertCourses(d1, job, source, snapshot.courses);
    var d3 := UpsertTeachers(d2, job, source, snapshot.teachers);
    UpsertOfferings(d3, job, source, snapshot.offerings)
  }

  function AfterRelations(db: Db, source: int, snapshot: Snapshot): Db {
    var d1 := ClearSchedules(ClearTeaching(db, source), source);
    var d2 := InsertTeaching(d1, source, TeacherRows(snapshot.offerings));
    InsertSlots(d2, source, SlotRows(snapshot.offerings))
  }

  function AfterMembers(db: Db, job: int, source: int, snapshot: Snapshot): Option<Db> {
    InsertMembers(ClearMembers(db, source), source, job, snapshot.members)
  }

  function IdsOf<A>(items: seq<Item<A>>): seq<string> {
    seq(|items|, i requires 0 <= i < |items| => items[i].externalId)
  }

  function OfferingIdsOf(offerings: seq<ImportOffering>): seq<string> {
    seq(|offerings|, i requires 0 <= i < |offerings| => offerings[i].externalId)
  }

  function NonEmpty(ids: seq<string>): set<string> {
    set id | id in ids && id != ""
  }

  function AfterPruning(db: Db, source: int, snapshot: Snapshot): Db {
    var d1 := DeleteOfferings(db, Stale(db.offerings, source, NonEmpty(OfferingIdsOf(snapshot.offerings))));
    var d2 := DeleteTerms(d1, Stale(d1.terms, source, NonEmpty(IdsOf(snapshot.terms))));
    var d3 := DeleteCourses(d2, Stale(d2.courses, source, NonEmpty(IdsOf(snapshot.courses))));
    DeleteTeachers(d3, Stale(d3.teachers, source, NonEmpty(IdsOf(snapshot.teachers))))
  }

  /** The effect of a successful import. */
  function Imported(db: Db, job: int, source: int, snapshot: Snapshot): Option<Db> {
    var related := AfterRelations(AfterUpserts(db, job, source, snapshot), source, snapshot);
    match AfterMembers(related, job, source, snapshot)
    case None => None
    case Some(d) => Some(AfterPruning(d, source, snapshot))
  }

  // ---- the transaction ----

  /** ids of a list with the empty ones skipped (term, course, teacher and offeringExternalIDs). */
  method ExternalIds(all: seq<string>) returns (ids: seq<string>)
    ensures forall id :: id in ids <==> id in NonEmpty(all)
  {
    ids := [];
    for i := 0 to |all|
      invariant forall id :: id in ids <==> id in NonEmpty(all[..i])
    {
      if all[i] == "" {
        continue;
      }
      ids := ids + [all[i]];
    }
    assert all[..|all|] == all;
  }

  /** scanAcademicExternalIDMapping over the RETURNING rows. */
  method ScanMapping(rows: seq<(string, int)>, expected: nat) returns (r: Result<map<string, int>, ImportError>)
    ensures r.Ok? <==> |set p | p in rows :: p.0| == expected
    ensures r.Ok? ==> forall id :: id in r.value <==> exists i :: 0 <= i < |rows| && rows[i].0 == id
    ensures r.Ok? ==> forall id | id in r.value :: (id, r.value[id]) in rows
  {
    var mapping: map<string, int> := map[];
    for i := 0 to |rows|
      invariant forall id :: id in mapping <==> exists j :: 0 <= j < i && rows[j].0 == id
      invariant forall id | id in mapping :: (id, mapping[id]) in rows[..i]
    {
      mapping := mapping[rows[i].0 := rows[i].1];
    }
    assert rows[..|rows|] == rows;
    assert mapping.Keys == set p | p in rows :: p.0;
    r := if |mapping| != expected then Err(MappingMismatch) else Ok(mapping);
  }

  /** The RETURNING clause. */
  function Returned<A>(t: Table<A>, source: int, items: seq<Item<A>>): seq<(string, int)>
    requires forall i | 0 <= i < |items| :: (source, items[i].externalId) in t
  {
    seq(|items|, i requires 0 <= i < |items| => (items[i].externalId, t[(source, items[i].externalId)].id))
  }

  lemma {:induction false} CountDistinct<A>(items: seq<Item<A>>, ids: set<string>)
    requires DistinctIds(items)
    requires forall id :: id in ids <==> Knows(items, id)
    ensures |ids| == |items|
    decreases |items|
  {
    if items != [] {
      var last := items[|items| - 1].externalId;
      var rest := items[..|items| - 1];
      assert Knows(items, last);
      forall id
        ensures id in ids - {last} <==> Knows(rest, id)
      {
        if id in ids - {last} {
          var i :| 0 <= i < |items| && items[i].externalId == id;
          assert rest[i].externalId == id;
        }
        if Knows(rest, id) {
          var i :| 0 <= i < |rest| && rest[i].externalId == id;
          assert items[i].externalId == id;
        }
      }
      CountDistinct(rest, ids - {last});
    } else {
      assert forall id :: id !in ids;
    }
  }

  /** One bulk upsert: PostgreSQL refuses a value its column cannot hold and a statement that would update a
      row twice, and the mapping must have one entry for each of the `expected` input rows. */
  method UpsertRows<A>(t: Table<A>, next: int, source: int, job: int, items: seq<Item<A>>, expected: nat)
    returns (r: Result<Table<A>, ImportError>, mapping: map<string, int>)
    ensures r.Ok? <==> AllFit(items) && DistinctIds(items) && |items| == expected
    ensures r.Ok? ==> r.value == Upsert(t, next, source, job, items)
    ensures r.Ok? ==> forall id :: id in mapping <==> Knows(items, id)
  {
    mapping := map[];
    if !AllFit(items) {
      return Err(BadValue), mapping;
    }
    if !DistinctIds(items) {
      return Err(DuplicateKey), mapping;
    }
    var t' := Upsert(t, next, source, job, items);
    forall i | 0 <= i < |items|
      ensures (source, items[i].externalId) in t'
    {
      UpsertAt(t, next, source, job, items, i);
    }
    var rows := Returned(t', source, items);
    ghost var ids := set p | p in rows :: p.0;
    forall id
      ensures id in ids <==> Knows(items, id)
    {
      if Knows(items, id) {
        var i :| 0 <= i < |items| && items[i].externalId == id;
        assert rows[i] in rows;
      }
    }
    CountDistinct(items, ids);
    var scan := ScanMapping(rows, expected);
    if scan.Err? {
      return Err(scan.error), mapping;
    }
    forall id
      ensures id in scan.value <==> Knows(items, id)
    {
      assert forall i | 0 <= i < |items| :: rows[i].0 == items[i].externalId;
    }
    return Ok(t'), scan.value;
  }

  /** The inner loop over an offering's teachers. */
  method CollectTeachers(o: ImportOffering, teacherIds: map<string, int>) returns (r: Result<seq<(string, string)>, ImportError>)
    ensures r.Ok? <==> forall t | t in o.teachers :: t in teacherIds
    ensures r.Ok? ==> r.value == TeacherRowsOf(o.externalId, o.teachers)
  {
    var rows: seq<(string, string)> := [];
    for j := 0 to |o.teachers|
      invariant forall n | 0 <= n < j :: o.teachers[n] in teacherIds
      invariant rows == TeacherRowsOf(o.externalId, o.teachers)[..j]
    {
      if o.teachers[j] !in teacherIds {
        return Err(UnknownReference);
      }
      rows := rows + [(o.externalId, o.teachers[j])];
    }
    return Ok(rows);
  }

  /** The inner loop over an offering's schedule. */
  method CollectSlots(o: ImportOffering) returns (rows: seq<(string, Slot)>)
    ensures rows == SlotRowsOf(o.externalId, o.slots)
  {
    rows := [];
    for j := 0 to |o.slots|
      invariant rows == SlotRowsOf(o.externalId, o.slots)[..j]
    {
      rows := rows + [(o.externalId, o.slots[j])];
    }
  }

  /** Collecting the relation rows of every offering, checking each reference on the way. */
  method CollectRelations(offerings: seq<ImportOffering>, teacherIds: map<string, int>, offeringIds: map<string, int>)
    returns (r: Result<(seq<(string, string)>, seq<(string, Slot)>), ImportError>)
    ensures r.Ok? <==> forall o | o in offerings :: o.externalId in offeringIds && forall t | t in o.teachers :: t in teacherIds
    ensures r.Ok? ==> r.value == (TeacherRows(offerings), SlotRows(offerings))
  {
    var teacherRows: seq<(string, string)> := [];
    var slotRows: seq<(string, Slot)> := [];
    for i := 0 to |offerings|
      invariant forall j | 0 <= j < i :: offerings[j].externalId in offeringIds && forall t | t in offerings[j].teachers :: t in teacherIds
      invariant TeacherRows(offerings) == teacherRows + TeacherRows(offerings[i..])
      invariant SlotRows(offerings) == slotRows + SlotRows(offerings[i..])
    {
      var o := offerings[i];
      assert o in offerings;
      if o.externalId !in offeringIds {
        return Err(UnknownReference);
      }
      var teachers := CollectTeachers(o, teacherIds);
      if teachers.Err? {
        return Err(teachers.error);
      }
      var slots := CollectSlots(o);
      assert offerings[i..][0] == o && offerings[i..][1..] == offerings[i + 1..];
      assert TeacherRows(offerings[i..]) == teachers.value + TeacherRows(offerings[i + 1..]);
      assert SlotRows(offerings[i..]) == slots + SlotRows(offerings[i + 1..]);
      teacherRows := teacherRows + teachers.value;
      slotRows := slotRows + slots;
    }
    assert offerings[|offerings|..] == [] && teacherRows + [] == teacherRows && slotRows + [] == slotRows;
    return Ok((teacherRows, slotRows));
  }

  lemma {:induction false} JoinedAll(terms: Table<Attributes>, courses: Table<Attributes>, source: int, offerings: seq<ImportOffering>)
    requires forall o | o in offerings :: (source, o.term) in terms && (source, o.course) in courses
    ensures var items := Joined(terms, courses, source, offerings);
      && |items| == |offerings|
      && forall i | 0 <= i < |offerings| ::
        var o := offerings[i];
        items[i] == Item(o.externalId, Offering(terms[(source, o.term)].id, courses[(source, o.course)].id, o.attributes), o.fits)
  {
    if offerings != [] {
      JoinedAll(terms, courses, source, offerings[1..]);
    }
  }

  lemma {:induction false} CountAllKnown(offerings: Table<Offering>, source: int, ids: seq<string>)
    requires forall id | id in ids :: (source, id) in offerings
    ensures CountKnown(offerings, source, ids) == |ids|
  {
    if ids != [] {
      CountAllKnown(offerings, source, ids[1..]);
    }
  }

  /** And only then. */
  lemma {:induction false} CountIsAtMostAll(offerings: Table<Offering>, source: int, ids: seq<string>)
    ensures CountKnown(offerings, source, ids) <= |ids|
    ensures CountKnown(offerings, source, ids) == |ids| ==> forall id | id in ids :: (source, id) in offerings
  {
    if ids != [] {
      CountIsAtMostAll(offerings, source, ids[1..]);
      assert ids == [ids[0]] + ids[1..];
    }
  }

  ghost predicate FreshMembers(db: Db, source: int, rows: seq<ImportMember>)
    requires forall m | m in rows :: (source, m.offering) in db.offerings
  {
    && (forall i | 0 <= i < |rows| :: MemberAt(db, source, rows[i]) !in db.members && MemberFits(rows[i]))
    && DistinctMembers(rows)
  }

  /** The insert succeeds exactly when no unique key repeats, every role is allowed and every text fits. */
  lemma {:induction false} InsertMembersIff(db: Db, source: int, job: int, rows: seq<ImportMember>)
    requires UniqueIds(db.offerings, db.next)
    requires forall m | m in rows :: (source, m.offering) in db.offerings
    ensures InsertMembers(db, source, job, rows).Some? <==> FreshMembers(db, source, rows)
    decreases |rows|
  {
    if rows != [] {
      var k := MemberAt(db, source, rows[0]);
      if k !in db.members && MemberFits(rows[0]) {
        var db' := db.(members := db.members[k := Member(job, rows[0].student)]);
        InsertMembersIff(db', source, job, rows[1..]);
        FreshMembersStep(db, source, job, rows);
      } else {
        assert !FreshMembers(db, source, rows);
      }
    }
  }

  lemma FreshMembersStep(db: Db, source: int, job: int, rows: seq<ImportMember>)
    requires UniqueIds(db.offerings, db.next) && rows != []
    requires forall m | m in rows :: (source, m.offering) in db.offerings
    requires MemberAt(db, source, rows[0]) !in db.members && MemberFits(rows[0])
    ensures var db' := db.(members := db.members[MemberAt(db, source, rows[0]) := Member(job, rows[0].student)]);
      FreshMembers(db', source, rows[1..]) <==> FreshMembers(db, source, rows)
  {
  }
}
