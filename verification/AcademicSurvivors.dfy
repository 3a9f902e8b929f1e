/** What an import leaves of any valid snapshot: everything but the rows with an empty external id, and
    what depends on them. */
module AcademicSurvivors {
  import opened AcademicTables
  import opened AcademicImport
  import opened AcademicRefinement

  // ---- what survives of a snapshot ----

  function KeepItems(items: seq<Item<Attributes>>): seq<Item<Attributes>> {
    if items == [] then [] else (if items[0].externalId != "" then [items[0]] else []) + KeepItems(items[1..])
  }

  function KeepIds(ids: seq<string>): seq<string> {
    if ids == [] then [] else (if ids[0] != "" then [ids[0]] else []) + KeepIds(ids[1..])
  }

  /** An offering goes with its own row, its term or its course. */
  predicate OfferingSurvives(o: ImportOffering) {
    o.externalId != "" && o.term != "" && o.course != ""
  }

  function KeepOfferings(offerings: seq<ImportOffering>): seq<ImportOffering> {
    if offerings == [] then []
    else
      (if OfferingSurvives(offerings[0]) then [offerings[0].(teachers := KeepIds(offerings[0].teachers))] else [])
      + KeepOfferings(offerings[1..])
  }

  function KeepMembers(offerings: seq<ImportOffering>, members: seq<ImportMember>): seq<ImportMember> {
    if members == [] then []
    else (if KnowsOffering(offerings, members[0].offering) then [members[0]] else []) + KeepMembers(offerings, members[1..])
  }

  function Surviving(snapshot: Snapshot): Snapshot {
    var offerings := KeepOfferings(snapshot.offerings);
    Snapshot(KeepItems(snapshot.terms), KeepItems(snapshot.courses), KeepItems(snapshot.teachers), offerings,
             KeepMembers(offerings, snapshot.members))
  }

  lemma {:induction false} KeepItemsMeans(items: seq<Item<Attributes>>)
    ensures forall x :: x in KeepItems(items) <==> x in items && x.externalId != ""
  {
    if items != [] {
      KeepItemsMeans(items[1..]);
      assert items == [items[0]] + items[1..];
    }
  }

  lemma {:induction false} KeepIdsMeans(ids: seq<string>)
    ensures forall x :: x in KeepIds(ids) <==> x in ids && x != ""
  {
    if ids != [] {
      KeepIdsMeans(ids[1..]);
      assert ids == [ids[0]] + ids[1..];
    }
  }

  /** The surviving offerings are those of the snapshot, each without its empty teachers. */
  lemma {:induction false} KeepOfferingsMeans(offerings: seq<ImportOffering>)
    ensures forall o | o in offerings && OfferingSurvives(o) :: o.(teachers := KeepIds(o.teachers)) in KeepOfferings(offerings)
    ensures forall x | x in KeepOfferings(offerings) ::
      exists o :: o in offerings && OfferingSurvives(o) && x == o.(teachers := KeepIds(o.teachers))
  {
    if offerings != [] {
      KeepOfferingsMeans(offerings[1..]);
      assert offerings == [offerings[0]] + offerings[1..];
    }
  }

  lemma {:induction false} KeepMembersMeans(offerings: seq<ImportOffering>, members: seq<ImportMember>)
    ensures forall m :: m in KeepMembers(offerings, members) <==> m in members && KnowsOffering(offerings, m.offering)
  {
    if members != [] {
      KeepMembersMeans(offerings, members[1..]);
      assert members == [members[0]] + members[1..];
    }
  }

  lemma KnowsKept(items: seq<Item<Attributes>>, id: string)
    ensures Knows(KeepItems(items), id) <==> Knows(items, id) && id != ""
  {
    KeepItemsMeans(items);
    var kept := KeepItems(items);
    if Knows(kept, id) {
      var i :| 0 <= i < |kept| && kept[i].externalId == id;
      assert kept[i] in items;
      var j :| 0 <= j < |items| && items[j] == kept[i];
    }
    if Knows(items, id) && id != "" {
      var i :| 0 <= i < |items| && items[i].externalId == id;
      assert items[i] in kept;
      var j :| 0 <= j < |kept| && kept[j] == items[i];
    }
  }

  /** The one offering of a distinct list with a given id. */
  lemma KnowsKeptOffering(offerings: seq<ImportOffering>, o: ImportOffering)
    requires DistinctOfferings(offerings) && o in offerings
    ensures KnowsOffering(KeepOfferings(offerings), o.externalId) <==> OfferingSurvives(o)
  {
    KeepOfferingsMeans(offerings);
    var kept := KeepOfferings(offerings);
    if OfferingSurvives(o) {
      var i :| 0 <= i < |kept| && kept[i] == o.(teachers := KeepIds(o.teachers));
      assert kept[i].externalId == o.externalId;
    }
    if KnowsOffering(kept, o.externalId) {
      var i :| 0 <= i < |kept| && kept[i].externalId == o.externalId;
      assert kept[i] in kept;
      var x :| x in offerings && OfferingSurvives(x) && kept[i] == x.(teachers := KeepIds(x.teachers));
      SameIdSameOffering(offerings, o, x);
    }
  }

  lemma SameIdSameOffering(offerings: seq<ImportOffering>, a: ImportOffering, b: ImportOffering)
    requires DistinctOfferings(offerings) && a in offerings && b in offerings && a.externalId == b.externalId
    ensures a == b
  {
    var i :| 0 <= i < |offerings| && offerings[i] == a;
    var j :| 0 <= j < |offerings| && offerings[j] == b;
    assert i == j;
  }

  lemma KnownKeptIsKnown(offerings: seq<ImportOffering>, id: string) returns (o: ImportOffering)
    requires KnowsOffering(KeepOfferings(offerings), id)
    ensures o in offerings && o.externalId == id && OfferingSurvives(o)
  {
    KeepOfferingsMeans(offerings);
    var kept := KeepOfferings(offerings);
    var i :| 0 <= i < |kept| && kept[i].externalId == id;
    assert kept[i] in kept;
    o :| o in offerings && OfferingSurvives(o) && kept[i] == o.(teachers := KeepIds(o.teachers));
  }

  lemma SurvivingHasNoEmptyIds(snapshot: Snapshot)
    ensures NoEmptyIds(Surviving(snapshot))
  {
    KeepItemsMeans(snapshot.terms);
    KeepItemsMeans(snapshot.courses);
    KeepItemsMeans(snapshot.teachers);
    KeepOfferingsMeans(snapshot.offerings);
    var s := Surviving(snapshot);
    assert forall i | 0 <= i < |s.terms| :: s.terms[i] in s.terms;
    assert forall i | 0 <= i < |s.courses| :: s.courses[i] in s.courses;
    assert forall i | 0 <= i < |s.teachers| :: s.teachers[i] in s.teachers;
    assert forall i | 0 <= i < |s.offerings| :: s.offerings[i] in s.offerings;
  }

  lemma ConsIsDistinct(m: ImportMember, members: seq<ImportMember>)
    requires DistinctMembers(members) && forall x | x in members :: !SameMember(m, x)
    ensures DistinctMembers([m] + members)
  {
    var all := [m] + members;
    assert forall i | 1 <= i < |all| :: all[i] == members[i - 1] && all[i] in members;
  }

  lemma {:induction false} KeptMembersAreDistinct(offerings: seq<ImportOffering>, members: seq<ImportMember>)
    requires DistinctMembers(members)
    ensures DistinctMembers(KeepMembers(offerings, members))
  {
    if members != [] {
      var rest := members[1..];
      assert forall i | 0 <= i < |rest| :: rest[i] == members[i + 1];
      KeptMembersAreDistinct(offerings, rest);
      KeepMembersMeans(offerings, rest);
      ConsIsDistinct(members[0], KeepMembers(offerings, rest));
      assert [] + KeepMembers(offerings, rest) == KeepMembers(offerings, rest);
    }
  }

  lemma SurvivingMembersAreValid(snapshot: Snapshot)
    requires ValidMembers(snapshot)
    ensures ValidMembers(Surviving(snapshot))
  {
    var offerings := KeepOfferings(snapshot.offerings);
    KeptMembersAreDistinct(offerings, snapshot.members);
    KeepMembersMeans(offerings, snapshot.members);
  }

  // ---- nothing is dropped where no id is empty ----

  lemma {:induction false} AllItemsKept(items: seq<Item<Attributes>>)
    requires NoEmptyId(items)
    ensures KeepItems(items) == items
  {
    if items != [] {
      assert forall i | 0 <= i < |items[1..]| :: items[1..][i] == items[i + 1];
      AllItemsKept(items[1..]);
    }
  }

  lemma {:induction false} AllIdsKept(ids: seq<string>)
    requires "" !in ids
    ensures KeepIds(ids) == ids
  {
    if ids != [] {
      AllIdsKept(ids[1..]);
    }
  }

  lemma {:induction false} AllOfferingsKept(offerings: seq<ImportOffering>)
    requires forall o | o in offerings :: OfferingSurvives(o) && "" !in o.teachers
    ensures KeepOfferings(offerings) == offerings
  {
    if offerings != [] {
      AllOfferingsKept(offerings[1..]);
      assert offerings[0] in offerings;
      AllIdsKept(offerings[0].teachers);
    }
  }

  lemma {:induction false} AllMembersKept(offerings: seq<ImportOffering>, members: seq<ImportMember>)
    requires forall m | m in members :: KnowsOffering(offerings, m.offering)
    ensures KeepMembers(offerings, members) == members
  {
    if members != [] {
      AllMembersKept(offerings, members[1..]);
      assert members[0] in members;
    }
  }

  /** Valid references never name an empty id unless some row has one. */
  lemma NothingIsDropped(snapshot: Snapshot)
    requires ValidSnapshot(snapshot) && NoEmptyIds(snapshot)
    ensures Surviving(snapshot) == snapshot
  {
    AllItemsKept(snapshot.terms);
    AllItemsKept(snapshot.courses);
    AllItemsKept(snapshot.teachers);
    assert !Knows(snapshot.terms, "") && !Knows(snapshot.courses, "") && !Knows(snapshot.teachers, "");
    forall o | o in snapshot.offerings
      ensures OfferingSurvives(o) && "" !in o.teachers
    {
      var i :| 0 <= i < |snapshot.offerings| && snapshot.offerings[i] == o;
    }
    AllOfferingsKept(snapshot.offerings);
    AllMembersKept(snapshot.offerings, snapshot.members);
  }
}
