/** Publication checks no chronology: a clock that steps back between two publications leaves a directory
    nobody accepts any more. */
module ActivationClock {
  import opened Options
  import opened ActivationRecords
  import opened ActivationChain
  import opened ActivationPublish
  import opened ActivationCrash
  import opened ActivationOutcome

  lemma {:induction false} StringLessAfterPrefix(p: string, a: string, b: string)
    ensures StringLess(p + a, p + b) == StringLess(a, b)
  {
    if p != [] {
      assert (p + a)[1..] == p[1..] + a && (p + b)[1..] == p[1..] + b;
      StringLessAfterPrefix(p[1..], a, b);
    } else {
      assert p + a == a && p + b == b;
    }
  }

  /** A legacy record whose details are all empty. */
  function LegacyRecord(id: string, at: string): Document {
    map key | key in LEGACY_FIELDS ::
      match key
      case SchemaVersion => Numeric(LEGACY_SCHEMA, "")
      case Event => Text(EVENT)
      case ActivationId => Text(id)
      case ActivatedAt => Text(at)
      case _ => Text("")
  }

  lemma LegacyRecordIsWellFormed(c: Codec, id: string, at: string)
    requires IsSafeId(id) && c.detailOk(LegacyRecord(id, at))
    ensures WellFormed(c, LegacyRecord(id, at)) && IsLegacy(LegacyRecord(id, at))
  {
    var d := LegacyRecord(id, at);
    assert Get(d, SchemaVersion) == Numeric(LEGACY_SCHEMA, "");
    assert d.Keys == LEGACY_FIELDS;
  }

  const EARLY := "2026-08-04T00:00:0" + "0Z"
  const LATE := "2026-08-04T00:00:0" + "1Z"
  const ZEROS := seq(64, _ => '0')
  const LINK_TO_FIRST := Link("a", ZEROS)
  const SUPERSEDE := Request(map key | key in IDENTITY_FIELDS :: "", "bb", Text(""), true)
  const FIRST := LegacyRecord("a", LATE)

  /** A clock that stands at `EARLY`, with every detail and timestamp acceptable. */
  function CodecOf(parse: Bytes -> Option<Json>): Codec {
    Codec(parse, d => if IsLegacy(d) then [1] else [2], _ => ZEROS, (_, _) => true, _ => EARLY, _ => true)
  }

  /** What superseding the first record writes. */
  const SECOND := NewDocument(CodecOf(_ => None), SUPERSEDE, 0, Some(LINK_TO_FIRST))

  /** The codec knows these two documents. */
  const TWO_DOCUMENTS := CodecOf(p => if p == [1] then Some(Object(FIRST)) else if p == [2] then Some(Object(SECOND)) else None)

  const FIRST_RECORD := Record([1], FIRST, "a", LATE, None)
  const SECOND_RECORD := Record([2], SECOND, "bb", EARLY, Some(LINK_TO_FIRST))
  const FIRST_ONLY := Disk(Some([1]), map[], Some(map[FileName("a") := [1]]))

  lemma FirstReads(now: int)
    ensures Read(TWO_DOCUMENTS, now, [1]) == Some(FIRST_RECORD)
  {
    LegacyRecordIsWellFormed(TWO_DOCUMENTS, "a", LATE);
    assert Get(FIRST, SchemaVersion) == Numeric(LEGACY_SCHEMA, "");
  }

  lemma LinkToFirstIsLink()
    ensures IsLink(LinkJson(Some(LINK_TO_FIRST)))
  {
  }

  /** The document has the fields and the header of the current schema. */
  lemma SecondIsWellFormed()
    ensures WellFormed(TWO_DOCUMENTS, SECOND) && !IsLegacy(SECOND)
    ensures Get(SECOND, ActivationId) == Text("bb") && Get(SECOND, ActivatedAt) == Text(EARLY)
    ensures Get(SECOND, PreviousActivation) == LinkJson(Some(LINK_TO_FIRST))
  {
    var c := CodecOf(_ => None);
    NewDocumentKeys(c, SUPERSEDE, 0, Some(LINK_TO_FIRST));
    NewDocumentEvent(c, SUPERSEDE, 0, Some(LINK_TO_FIRST));
    NewDocumentFields(c, SUPERSEDE, 0, Some(LINK_TO_FIRST));
    LinkToFirstIsLink();
    HeaderIsWellFormed(TWO_DOCUMENTS, SECOND);
  }

  lemma HeaderIsWellFormed(c: Codec, d: Document)
    requires d.Keys == ExpectedFields(Numeric(CURRENT_SCHEMA, "3")) && Get(d, SchemaVersion) == Numeric(CURRENT_SCHEMA, "3")
    requires Get(d, Field.Event) == Text(EVENT) && Get(d, ActivationId).Text? && IsSafeId(Get(d, ActivationId).text)
    requires Get(d, ActivatedAt).Text? && c.detailOk(d) && IsLink(Get(d, PreviousActivation))
    ensures WellFormed(c, d) && !IsLegacy(d)
  {
  }

  lemma SecondReads(now: int)
    ensures Read(TWO_DOCUMENTS, now, [2]) == Some(SECOND_RECORD)
  {
    SecondIsWellFormed();
    LinkJsonReads(LINK_TO_FIRST);
    LinkToFirstIsLink();
    assert PredecessorOf(SECOND) == Some(LINK_TO_FIRST);
  }

  /** Publication computes that record, whenever it stamps. */
  lemma SecondIsNext(now: int)
    ensures NewRecord(TWO_DOCUMENTS, SUPERSEDE, now, Some(LINK_TO_FIRST)) == Some(SECOND_RECORD)
  {
    SecondReads(now);
    SecondIsWellFormed();
    assert NewDocument(TWO_DOCUMENTS, SUPERSEDE, now, Some(LINK_TO_FIRST)) == SECOND;
    assert IsSafeId("bb");
  }

  lemma FirstIsHistory(now: int)
    ensures IsHistory(At(TWO_DOCUMENTS, now), FIRST_ONLY, [FIRST_RECORD])
  {
    FirstReads(now);
    assert Stores(At(TWO_DOCUMENTS, now), Files(FIRST_ONLY), FIRST_RECORD);
    assert [FIRST_RECORD][0] == FIRST_RECORD;
  }

  lemma SecondFollowsFirst(loadNow: int, stampNow: int)
    ensures NextRecord(TWO_DOCUMENTS, SUPERSEDE, FIRST_ONLY, loadNow, stampNow) == Some(SECOND_RECORD)
  {
    FirstIsHistory(loadNow);
    assert Accepted(At(TWO_DOCUMENTS, loadNow), FIRST_ONLY);
    FirstReads(loadNow);
    SecondIsNext(stampNow);
    FileNameIsInjective("a", "bb");
    assert Get(FIRST, SchemaVersion) == Numeric(LEGACY_SCHEMA, "");
  }

  const RECORD_NAME := ".bb.json." + "00000000"
  const POINTER_NAME := "." + CURRENT_NAME + "." + "00000000"

  lemma NamesAreFresh()
    ensures FreshNames(FIRST_ONLY, SUPERSEDE, RECORD_NAME, POINTER_NAME)
  {
    assert FileName("bb") == "bb.json";
    assert RECORD_NAME[..9] == "." + FileName("bb") + ".";
    assert POINTER_NAME[..|CURRENT_NAME| + 2] == "." + CURRENT_NAME + ".";
    TemporaryIsNoRecord(RECORD_NAME, FileName("bb"));
    FileNameIsInjective("a", "a");
  }

  /** The clock steps back one second between two publications: the second runs to its end and publishes,
      and no clock reading ever makes the directory acceptable again. */
  lemma ClockRegression(loadNow: int, stampNow: int)
    ensures IsHistory(At(TWO_DOCUMENTS, loadNow), FIRST_ONLY, [FIRST_RECORD])
    ensures Solo(TWO_DOCUMENTS, SUPERSEDE, FIRST_ONLY, Start, Uninterrupted(true, loadNow, stampNow, RECORD_NAME, POINTER_NAME))
      == (Appended(FIRST_ONLY, SECOND_RECORD), Done(Published(SECOND_RECORD)))
    ensures forall now :: !Accepted(At(TWO_DOCUMENTS, now), Appended(FIRST_ONLY, SECOND_RECORD))
  {
    FirstIsHistory(loadNow);
    SecondFollowsFirst(loadNow, stampNow);
    NamesAreFresh();
    StringLessAfterPrefix("2026-08-04T00:00:0", "0Z", "1Z");
    RegressionIsFatal(TWO_DOCUMENTS, SUPERSEDE, FIRST_ONLY, [FIRST_RECORD], loadNow, stampNow, RECORD_NAME, POINTER_NAME, SECOND_RECORD);
  }
}
