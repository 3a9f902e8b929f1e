/** The gate over image scans: what was observed must be exactly what was excepted or assessed. */
module ScanGate {
  import opened Options

  datatype Severity = HIGH | CRITICAL | UNKNOWN | Unsupported

  datatype Key = Key(image: string, vulnerability: string, severity: Severity, package: string, installed: string)

  datatype Finding = Finding(key: Key, fixed: string)

  /** A finding as written in a policy or a report, its texts stripped; `typed` is whether every field
      has the type it must have. */
  datatype Raw = Raw(typed: bool, id: string, severity: Severity, package: string, installed: string, fixed: string)

  /** Dates are day numbers. */
  datatype Window = Window(start: int, end: int)

  /** `sound` is whether owner, rationale, mitigations and evidence are in order. */
  datatype Group = Group(sound: bool, image: string, window: Window, findings: seq<Raw>)

  datatype Vex = Vex(sound: bool, image: string, window: Window, finding: Raw)

  datatype Policy = Policy(maximumDays: int, exceptions: seq<Group>, vex: seq<Vex>)

  /** `results` holds the vulnerabilities of each result; None is a null list. */
  datatype Report = Report(sound: bool, results: seq<Option<seq<Raw>>>)

  datatype Clock = Clock(today: int, minimumDays: int)

  datatype PolicyError = PolicyError

  type Findings = map<Key, Finding>

  // ---- the specification: sets of findings ----

  predicate RawOk(raw: Raw) {
    raw.typed && raw.id != "" && raw.severity != Unsupported && raw.package != "" && raw.installed != ""
  }

  function ToFinding(image: string, raw: Raw): Finding {
    Finding(Key(image, raw.id, raw.severity, raw.package, raw.installed), raw.fixed)
  }

  predicate WindowOk(w: Window, clock: Clock, maximumDays: int) {
    && w.start <= clock.today <= w.end
    && w.end - clock.today >= clock.minimumDays
    && w.start <= w.end && w.end - w.start <= maximumDays
  }

  predicate GroupHeadOk(g: Group, images: set<string>, clock: Clock, maximumDays: int) {
    g.sound && g.image in images && WindowOk(g.window, clock, maximumDays) && g.findings != []
  }

  predicate ExceptionOk(raw: Raw) {
    RawOk(raw) && raw.severity != CRITICAL
  }

  predicate GroupOk(g: Group, images: set<string>, clock: Clock, maximumDays: int) {
    GroupHeadOk(g, images, clock, maximumDays) && forall raw | raw in g.findings :: ExceptionOk(raw)
  }

  predicate VexOk(v: Vex, images: set<string>, clock: Clock, maximumDays: int) {
    v.sound && v.image in images && WindowOk(v.window, clock, maximumDays) && RawOk(v.finding)
  }

  function GroupFindings(g: Group): seq<Finding> {
    seq(|g.findings|, i requires 0 <= i < |g.findings| => ToFinding(g.image, g.findings[i]))
  }

  function Excepted(groups: seq<Group>): seq<Finding> {
    if groups == [] then [] else Excepted(groups[..|groups| - 1]) + GroupFindings(groups[|groups| - 1])
  }

  function Assessed(records: seq<Vex>): seq<Finding> {
    seq(|records|, i requires 0 <= i < |records| => ToFinding(records[i].image, records[i].finding))
  }

  predicate DistinctKeys(s: seq<Finding>) {
    forall i, j | 0 <= i < j < |s| :: s[i].key != s[j].key
  }

  predicate PolicyOk(p: Policy, images: set<string>, clock: Clock) {
    && (forall g | g in p.exceptions :: GroupOk(g, images, clock, p.maximumDays))
    && (forall v | v in p.vex :: VexOk(v, images, clock, p.maximumDays))
    && DistinctKeys(Excepted(p.exceptions) + Assessed(p.vex))
  }

  /** A finding of one result. */
  predicate Reports(image: string, result: Option<seq<Raw>>, f: Finding) {
    result.Some? && exists raw :: raw in result.value && f == ToFinding(image, raw)
  }

  ghost predicate ReportedIn(image: string, results: seq<Option<seq<Raw>>>, f: Finding) {
    exists result :: result in results && Reports(image, result, f)
  }

  ghost predicate Observed(reports: map<string, Report>, f: Finding) {
    f.key.image in reports && ReportedIn(f.key.image, reports[f.key.image].results, f)
  }

  ghost function AllObserved(reports: map<string, Report>): iset<Finding> {
    iset f | Observed(reports, f)
  }

  predicate ReportOk(report: Report) {
    report.sound && forall result | result in report.results && result.Some? :: forall raw | raw in result.value :: RawOk(raw)
  }

  /** One report for each image, all in order, none contradicting itself about a fixed version. */
  ghost predicate ScanOk(reports: map<string, Report>, images: set<string>) {
    && reports.Keys == images
    && (forall image | image in reports :: ReportOk(reports[image]))
    && (forall f, g | Observed(reports, f) && Observed(reports, g) && f.key == g.key :: f == g)
  }

  /** What was observed is what the policy declares, fixed versions included. */
  ghost predicate Covered(p: Policy, reports: map<string, Report>) {
    forall f :: Observed(reports, f) <==> f in Excepted(p.exceptions) || f in Assessed(p.vex)
  }

  ghost predicate Accepts(p: Policy, reports: map<string, Report>, images: set<string>, clock: Clock) {
    PolicyOk(p, images, clock) && ScanOk(reports, images) && Covered(p, reports)
  }

  // ---- dictionaries of findings ----

  predicate Holds(m: Findings, s: seq<Finding>) {
    && (forall f | f in s :: f.key in m && m[f.key] == f)
    && (forall k | k in m :: m[k].key == k && m[k] in s)
  }

  /** The findings declared before each finding of a group and after the last. */
  ghost predicate GroupStages(g: Group, stages: seq<seq<Finding>>) {
    && |stages| == |g.findings| + 1
    && (forall i | 0 <= i < |g.findings| :: stages[i + 1] == stages[i] + [ToFinding(g.image, g.findings[i])])
    && (forall i | 0 <= i <= |g.findings| :: stages[i] <= stages[|g.findings|])
  }

  lemma MakeGroupStages(done: seq<Finding>, g: Group) returns (stages: seq<seq<Finding>>)
    ensures GroupStages(g, stages) && stages[0] == done && stages[|g.findings|] == done + GroupFindings(g)
  {
    var all := GroupFindings(g);
    stages := seq(|g.findings| + 1, i requires 0 <= i <= |g.findings| => done + all[..i]);
    assert all[..|all|] == all && done + all[..0] == done;
    forall i | 0 <= i < |g.findings|
      ensures stages[i + 1] == stages[i] + [ToFinding(g.image, g.findings[i])]
    {
      assert all[..i + 1] == all[..i] + [all[i]];
    }
  }

  /** parse_policy_finding on each finding of a group, then the two checks of an exception. */
  method AddGroup(g: Group, approved: Findings, ghost stages: seq<seq<Finding>>) returns (r: Result<Findings, PolicyError>)
    requires GroupStages(g, stages) && Holds(approved, stages[0]) && DistinctKeys(stages[0])
    ensures r.Ok? <==> (forall raw | raw in g.findings :: ExceptionOk(raw)) && DistinctKeys(stages[|g.findings|])
    ensures r.Ok? ==> Holds(r.value, stages[|g.findings|])
  {
    var m := approved;
    for i := 0 to |g.findings|
      invariant forall j | 0 <= j < i :: ExceptionOk(g.findings[j])
      invariant Holds(m, stages[i]) && DistinctKeys(stages[i])
    {
      var raw := g.findings[i];
      assert raw in g.findings;
      if !RawOk(raw) {
        return Err(PolicyError);
      }
      var finding := ToFinding(g.image, raw);
      if finding.key.severity !in {HIGH, UNKNOWN} {
        return Err(PolicyError);
      }
      AppendKey(m, stages[i], finding, stages[i + 1]);
      if finding.key in m {
        PrefixKeys(stages[i + 1], stages[|g.findings|]);
        return Err(PolicyError);
      }
      m := m[finding.key := finding];
    }
    return Ok(m);
  }

  lemma AppendKey(m: Findings, s: seq<Finding>, f: Finding, after: seq<Finding>)
    requires Holds(m, s) && DistinctKeys(s) && after == s + [f]
    ensures DistinctKeys(after) <==> f.key !in m
    ensures f.key !in m ==> Holds(m[f.key := f], after)
  {
    if f.key in m {
      var i :| 0 <= i < |s| && s[i] == m[f.key];
      assert after[i].key == after[|s|].key;
    } else {
      forall i | 0 <= i < |s|
        ensures s[i].key != f.key
      {
        assert s[i] in s;
      }
    }
  }

  /** Distinctness only gets lost. */
  lemma PrefixKeys(a: seq<Finding>, b: seq<Finding>)
    requires |a| <= |b| && a == b[..|a|] && !DistinctKeys(a)
    ensures !DistinctKeys(b)
  {
  }

  lemma ExceptedGrows(groups: seq<Group>, i: nat)
    requires i <= |groups|
    ensures |Excepted(groups[..i])| <= |Excepted(groups)| && Excepted(groups[..i]) == Excepted(groups)[..|Excepted(groups[..i])|]
    decreases |groups|
  {
    if i == |groups| {
      assert groups[..i] == groups;
    } else {
      var before := groups[..|groups| - 1];
      assert before[..i] == groups[..i];
      ExceptedGrows(before, i);
    }
  }

  lemma ExceptedStep(groups: seq<Group>, i: nat)
    requires i < |groups|
    ensures Excepted(groups[..i + 1]) == Excepted(groups[..i]) + GroupFindings(groups[i])
  {
    assert groups[..i + 1][..i] == groups[..i];
  }

  method AddExceptions(groups: seq<Group>, images: set<string>, clock: Clock, maximumDays: int) returns (r: Result<Findings, PolicyError>)
    ensures r.Ok? <==> (forall g | g in groups :: GroupOk(g, images, clock, maximumDays)) && DistinctKeys(Excepted(groups))
    ensures r.Ok? ==> Holds(r.value, Excepted(groups))
  {
    var approved: Findings := map[];
    for i := 0 to |groups|
      invariant forall j | 0 <= j < i :: GroupOk(groups[j], images, clock, maximumDays)
      invariant Holds(approved, Excepted(groups[..i])) && DistinctKeys(Excepted(groups[..i]))
    {
      var g := groups[i];
      assert g in groups;
      ExceptedStep(groups, i);
      ExceptedGrows(groups, i + 1);
      if !GroupHeadOk(g, images, clock, maximumDays) {
        return Err(PolicyError);
      }
      ghost var stages := MakeGroupStages(Excepted(groups[..i]), g);
      var added := AddGroup(g, approved, stages);
      if added.Err? {
        if !DistinctKeys(Excepted(groups[..i + 1])) {
          PrefixKeys(Excepted(groups[..i + 1]), Excepted(groups));
        }
        return Err(PolicyError);
      }
      approved := added.value;
    }
    assert groups[..|groups|] == groups;
    return Ok(approved);
  }

  /** The findings assessed before each record and after the last. */
  ghost predicate VexStages(records: seq<Vex>, stages: seq<seq<Finding>>) {
    && |stages| == |records| + 1 && stages[0] == []
    && (forall i | 0 <= i < |records| :: stages[i + 1] == stages[i] + [ToFinding(records[i].image, records[i].finding)])
    && (forall i | 0 <= i <= |records| :: stages[i] <= stages[|records|])
  }

  lemma MakeVexStages(records: seq<Vex>) returns (stages: seq<seq<Finding>>)
    ensures VexStages(records, stages) && stages[|records|] == Assessed(records)
  {
    var all := Assessed(records);
    stages := seq(|records| + 1, i requires 0 <= i <= |records| => all[..i]);
    assert all[..|all|] == all;
  }

  /** The records of the assessment: in order, under no key declared before. */
  method AddAssessments(p: Policy, images: set<string>, clock: Clock, approved: Findings, ghost excepted: seq<Finding>, ghost stages: seq<seq<Finding>>)
    returns (r: Result<Findings, PolicyError>)
    requires VexStages(p.vex, stages) && Holds(approved, excepted) && DistinctKeys(excepted)
    ensures r.Ok? <==> (forall v | v in p.vex :: VexOk(v, images, clock, p.maximumDays)) && DistinctKeys(excepted + stages[|p.vex|])
    ensures r.Ok? ==> Holds(r.value, stages[|p.vex|])
  {
    var vex: Findings := map[];
    assert excepted + [] == excepted;
    for i := 0 to |p.vex|
      invariant forall j | 0 <= j < i :: VexOk(p.vex[j], images, clock, p.maximumDays)
      invariant Holds(vex, stages[i]) && DistinctKeys(excepted + stages[i])
    {
      var record := p.vex[i];
      assert record in p.vex;
      if !record.sound || record.image !in images || !WindowOk(record.window, clock, p.maximumDays) || !RawOk(record.finding) {
        return Err(PolicyError);
      }
      var finding := ToFinding(record.image, record.finding);
      SplitKeys(approved, vex, excepted, stages[i], finding);
      if finding.key in vex || finding.key in approved {
        AfterPrefix(excepted, stages[i + 1], stages[|p.vex|]);
        return Err(PolicyError);
      }
      vex := vex[finding.key := finding];
    }
    return Ok(vex);
  }

  lemma AfterPrefix(a: seq<Finding>, b: seq<Finding>, longer: seq<Finding>)
    requires b <= longer && !DistinctKeys(a + b)
    ensures !DistinctKeys(a + longer)
  {
    assert a + b == (a + longer)[..|a + b|];
    PrefixKeys(a + b, a + longer);
  }

  method ValidatePolicy(p: Policy, images: set<string>, clock: Clock) returns (r: Result<(Findings, Findings), PolicyError>)
    ensures r.Ok? <==> PolicyOk(p, images, clock)
    ensures r.Ok? <==>
      && (forall g | g in p.exceptions :: GroupInOrder(g, images, clock, p.maximumDays))
      && (forall v | v in p.vex :: VexInOrder(v, images, clock, p.maximumDays))
      && DeclaresOnce(p)
    ensures r.Ok? ==> Holds(r.value.0, Excepted(p.exceptions)) && Holds(r.value.1, Assessed(p.vex))
  {
    PolicyIff(p, images, clock);
    var exceptions := AddExceptions(p.exceptions, images, clock, p.maximumDays);
    ghost var excepted, assessed := Excepted(p.exceptions), Assessed(p.vex);
    if exceptions.Err? {
      if !DistinctKeys(excepted) {
        PrefixKeys(excepted, excepted + assessed);
      }
      return Err(PolicyError);
    }
    ghost var stages := MakeVexStages(p.vex);
    var vex := AddAssessments(p, images, clock, exceptions.value, excepted, stages);
    if vex.Err? {
      return Err(PolicyError);
    }
    return Ok((exceptions.value, vex.value));
  }

  lemma SplitKeys(approved: Findings, vex: Findings, a: seq<Finding>, b: seq<Finding>, f: Finding)
    requires Holds(approved, a) && Holds(vex, b) && DistinctKeys(a + b)
    ensures DistinctKeys(a + (b + [f])) <==> f.key !in approved && f.key !in vex
    ensures f.key !in vex ==> Holds(vex[f.key := f], b + [f])
  {
    assert a + (b + [f]) == (a + b) + [f];
    UnionHolds(approved, vex, a, b);
    AppendKey(approved + vex, a + b, f, a + (b + [f]));
  }

  lemma UnionHolds(approved: Findings, vex: Findings, a: seq<Finding>, b: seq<Finding>)
    requires Holds(approved, a) && Holds(vex, b) && DistinctKeys(a + b)
    ensures Holds(approved + vex, a + b) && approved.Keys !! vex.Keys
  {
    DisjointKeys(approved, vex, a, b);
  }

  lemma DisjointKeys(approved: Findings, vex: Findings, a: seq<Finding>, b: seq<Finding>)
    requires Holds(approved, a) && Holds(vex, b) && DistinctKeys(a + b)
    ensures approved.Keys !! vex.Keys
  {
    forall i, j | 0 <= i < |a| && 0 <= j < |b|
      ensures a[i].key != b[j].key
    {
      assert (a + b)[i].key != (a + b)[|a| + j].key;
    }
    forall k, l | k in approved && l in vex
      ensures k != l
    {
      var i :| 0 <= i < |a| && a[i] == approved[k];
      var j :| 0 <= j < |b| && b[j] == vex[l];
    }
  }

  // ---- reading the scan ----

  ghost predicate HoldsAll(m: Findings, seen: iset<Finding>) {
    && (forall f | f in seen :: f.key in m && m[f.key] == f)
    && (forall k | k in m :: m[k].key == k && m[k] in seen)
  }

  ghost predicate Consistent(seen: iset<Finding>) {
    forall f, g | f in seen && g in seen && f.key == g.key :: f == g
  }

  ghost function ResultFindings(image: string, result: Option<seq<Raw>>): iset<Finding> {
    iset f | Reports(image, result, f)
  }

  ghost function ReportFindings(image: string, results: seq<Option<seq<Raw>>>): iset<Finding> {
    iset f | ReportedIn(image, results, f)
  }

  lemma AddOne(m: Findings, seen: iset<Finding>, f: Finding, after: iset<Finding>)
    requires HoldsAll(m, seen) && after == seen + iset{f}
    ensures Consistent(after) <==> (f.key in m ==> m[f.key].fixed == f.fixed)
    ensures Consistent(after) ==> HoldsAll(m[f.key := f], after)
  {
  }

  lemma MoreIsInconsistent(a: iset<Finding>, b: iset<Finding>)
    requires a <= b && !Consistent(a)
    ensures !Consistent(b)
  {
  }

  /** The findings seen so far, before each vulnerability of a result and after the last. */
  ghost predicate Stages(image: string, raws: seq<Raw>, stages: seq<iset<Finding>>) {
    && |stages| == |raws| + 1
    && (forall i | 0 <= i < |raws| :: stages[i + 1] == stages[i] + iset{ToFinding(image, raws[i])})
    && (forall i | 0 <= i <= |raws| :: stages[i] <= stages[|raws|])
  }

  lemma MakeStages(seen: iset<Finding>, image: string, raws: seq<Raw>) returns (stages: seq<iset<Finding>>)
    ensures Stages(image, raws, stages) && stages[0] == seen && stages[|raws|] == seen + ResultFindings(image, Some(raws))
  {
    stages := seq(|raws| + 1, i requires 0 <= i <= |raws| => seen + ResultFindings(image, Some(raws[..i])));
    assert raws[..|raws|] == raws;
    assert ResultFindings(image, Some(raws[..0])) == iset{};
    forall i | 0 <= i < |raws|
      ensures stages[i + 1] == stages[i] + iset{ToFinding(image, raws[i])}
    {
      ResultStep(image, raws, i);
    }
    forall i | 0 <= i <= |raws|
      ensures stages[i] <= stages[|raws|]
    {
      ResultPrefix(image, raws, i);
    }
  }

  lemma ResultPrefix(image: string, raws: seq<Raw>, i: nat)
    requires i <= |raws|
    ensures ResultFindings(image, Some(raws[..i])) <= ResultFindings(image, Some(raws))
  {
  }

  /** The vulnerabilities of one result. */
  method AddResult(image: string, raws: seq<Raw>, observed: Findings, ghost stages: seq<iset<Finding>>) returns (r: Result<Findings, PolicyError>)
    requires Stages(image, raws, stages) && HoldsAll(observed, stages[0])
    ensures r.Ok? <==> (forall raw | raw in raws :: RawOk(raw)) && Consistent(stages[|raws|])
    ensures r.Ok? ==> HoldsAll(r.value, stages[|raws|])
  {
    var m := observed;
    for i := 0 to |raws|
      invariant forall j | 0 <= j < i :: RawOk(raws[j])
      invariant HoldsAll(m, stages[i])
    {
      var raw := raws[i];
      assert raw in raws;
      if !RawOk(raw) {
        return Err(PolicyError);
      }
      var finding := ToFinding(image, raw);
      AddOne(m, stages[i], finding, stages[i + 1]);
      if finding.key in m && m[finding.key].fixed != finding.fixed {
        MoreIsInconsistent(stages[i + 1], stages[|raws|]);
        return Err(PolicyError);
      }
      m := m[finding.key := finding];
    }
    HoldsIsConsistent(m, stages[|raws|]);
    return Ok(m);
  }

  lemma HoldsIsConsistent(m: Findings, seen: iset<Finding>)
    requires HoldsAll(m, seen)
    ensures Consistent(seen)
  {
  }

  lemma ResultStep(image: string, raws: seq<Raw>, i: nat)
    requires i < |raws|
    ensures ResultFindings(image, Some(raws[..i + 1])) == ResultFindings(image, Some(raws[..i])) + iset{ToFinding(image, raws[i])}
  {
  }

  lemma ReportStep(image: string, results: seq<Option<seq<Raw>>>, i: nat)
    requires i < |results|
    ensures ReportFindings(image, results[..i + 1]) == ReportFindings(image, results[..i]) + ResultFindings(image, results[i])
  {
  }

  lemma ReportNext(image: string, results: seq<Option<seq<Raw>>>, seen: iset<Finding>, i: nat)
    requires i < |results|
    ensures seen + ReportFindings(image, results[..i + 1]) == seen + ReportFindings(image, results[..i]) + ResultFindings(image, results[i])
    ensures seen + ReportFindings(image, results[..i]) + ResultFindings(image, results[i]) <= seen + ReportFindings(image, results)
  {
    ReportStep(image, results, i);
  }

  predicate ResultOk(result: Option<seq<Raw>>) {
    result.Some? ==> forall raw | raw in result.value :: RawOk(raw)
  }

  /** The results of one report. */
  method AddReport(image: string, results: seq<Option<seq<Raw>>>, observed: Findings, ghost seen: iset<Finding>)
    returns (r: Result<Findings, PolicyError>)
    requires HoldsAll(observed, seen)
    ensures r.Ok? <==> (forall result | result in results :: ResultOk(result)) && Consistent(seen + ReportFindings(image, results))
    ensures r.Ok? ==> HoldsAll(r.value, seen + ReportFindings(image, results))
  {
    var m := observed;
    ghost var all := seen + ReportFindings(image, results);
    assert seen + ReportFindings(image, results[..0]) == seen;
    for i := 0 to |results|
      invariant forall j | 0 <= j < i :: ResultOk(results[j])
      invariant HoldsAll(m, seen + ReportFindings(image, results[..i]))
    {
      var result := results[i];
      assert result in results;
      ghost var before := seen + ReportFindings(image, results[..i]);
      ReportNext(image, results, seen, i);
      if result.None? {
        assert ResultFindings(image, result) == iset{};
        continue;
      }
      ghost var stages := MakeStages(before, image, result.value);
      var added := AddResult(image, result.value, m, stages);
      if added.Err? {
        if !Consistent(before + ResultFindings(image, result)) {
          MoreIsInconsistent(before + ResultFindings(image, result), all);
        }
        return Err(PolicyError);
      }
      m := added.value;
    }
    assert results[..|results|] == results;
    HoldsIsConsistent(m, all);
    return Ok(m);
  }

  ghost function SeenIn(reports: map<string, Report>, order: seq<string>): iset<Finding> {
    iset f: Finding | f.key.image in order && Observed(reports, f)
  }

  lemma SeenStep(reports: map<string, Report>, order: seq<string>, i: nat)
    requires i < |order| && order[i] in reports
    ensures SeenIn(reports, order[..i + 1]) == SeenIn(reports, order[..i]) + ReportFindings(order[i], reports[order[i]].results)
  {
  }

  function Images(order: seq<string>): set<string> {
    set image | image in order
  }

  /** The images in the order of the policy. The outcome does not depend on it, nor on the order of the
      results in a report or of the vulnerabilities in a result. */
  method ParseScanFindings(order: seq<string>, reports: map<string, Report>) returns (r: Result<Findings, PolicyError>)
    ensures r.Ok? <==> ScanOk(reports, Images(order))
    ensures r.Ok? <==>
      && reports.Keys == Images(order) && (forall image | image in reports :: ReportInOrder(reports[image]))
      && AgreesWithItself(reports)
    ensures r.Ok? ==> HoldsAll(r.value, AllObserved(reports))
  {
    ScanIff(reports, Images(order));
    ghost var all := AllObserved(reports);
    var images := Images(order);
    if reports.Keys != images {
      return Err(PolicyError);
    }
    var observed: Findings := map[];
    assert SeenIn(reports, order[..0]) == iset{};
    for i := 0 to |order|
      invariant forall j | 0 <= j < i :: ReportOk(reports[order[j]])
      invariant HoldsAll(observed, SeenIn(reports, order[..i]))
    {
      var image := order[i];
      assert image in images;
      var report := reports[image];
      if !report.sound {
        return Err(PolicyError);
      }
      SeenStep(reports, order, i);
      var added := AddReport(image, report.results, observed, SeenIn(reports, order[..i]));
      if added.Err? {
        if !Consistent(SeenIn(reports, order[..i + 1])) {
          MoreIsInconsistent(SeenIn(reports, order[..i + 1]), all);
        }
        return Err(PolicyError);
      }
      observed := added.value;
    }
    assert order[..|order|] == order;
    assert SeenIn(reports, order) == all by {
      forall f | Observed(reports, f)
        ensures f.key.image in order
      {
        assert f.key.image in images;
      }
    }
    HoldsIsConsistent(observed, all);
    return Ok(observed);
  }

  // ---- the comparison ----

  datatype Failure = Unapproved(key: Key) | Drift(key: Key) | StaleException(key: Key) | StaleVex(key: Key)

  function PolicyFinding(key: Key, approved: Findings, vex: Findings): Option<Finding> {
    if key in vex then Some(vex[key]) else if key in approved then Some(approved[key]) else None
  }

  predicate Fails(f: Failure, observed: Findings, approved: Findings, vex: Findings) {
    match f
    case Unapproved(k) => k in observed && PolicyFinding(k, approved, vex).None?
    case Drift(k) => k in observed && PolicyFinding(k, approved, vex).Some? && PolicyFinding(k, approved, vex).value.fixed != observed[k].fixed
    case StaleException(k) => k in approved && k !in observed
    case StaleVex(k) => k in vex && k !in observed
  }

  /** Every difference is reported, and only differences are. */
  method ValidateScan(observed: Findings, approved: Findings, vex: Findings) returns (failures: seq<Failure>)
    ensures forall f :: f in failures <==> Fails(f, observed, approved, vex)
  {
    failures := [];
    var todo := observed.Keys;
    while todo != {}
      invariant todo <= observed.Keys
      invariant forall f :: f in failures <==> (f.Unapproved? || f.Drift?) && f.key !in todo && Fails(f, observed, approved, vex)
      decreases |todo|
    {
      var key :| key in todo;
      todo := todo - {key};
      var policyFinding := PolicyFinding(key, approved, vex);
      if policyFinding.None? {
        failures := failures + [Unapproved(key)];
        continue;
      }
      if policyFinding.value.fixed != observed[key].fixed {
        failures := failures + [Drift(key)];
      }
    }
    todo := approved.Keys - observed.Keys;
    while todo != {}
      invariant todo <= approved.Keys - observed.Keys
      invariant forall f :: f in failures <==> !f.StaleVex? && (f.StaleException? ==> f.key !in todo) && Fails(f, observed, approved, vex)
      decreases |todo|
    {
      var key :| key in todo;
      todo := todo - {key};
      failures := failures + [StaleException(key)];
    }
    todo := vex.Keys - observed.Keys;
    while todo != {}
      invariant todo <= vex.Keys - observed.Keys
      invariant forall f :: f in failures <==> (f.StaleVex? ==> f.key !in todo) && Fails(f, observed, approved, vex)
      decreases |todo|
    {
      var key :| key in todo;
      todo := todo - {key};
      failures := failures + [StaleVex(key)];
    }
  }

  predicate Keyed(m: Findings) {
    forall k | k in m :: m[k].key == k
  }

  /** Nothing fails exactly when the observed dictionary is the union of the two declared ones. */
  lemma NothingFailsIff(observed: Findings, approved: Findings, vex: Findings)
    requires Keyed(observed) && Keyed(approved) && Keyed(vex) && approved.Keys !! vex.Keys
    ensures (forall f :: !Fails(f, observed, approved, vex)) <==> observed == approved + vex
  {
    if forall f :: !Fails(f, observed, approved, vex) {
      forall k
        ensures (k in observed <==> k in approved + vex) && (k in observed ==> observed[k] == (approved + vex)[k])
      {
        assert !Fails(Unapproved(k), observed, approved, vex) && !Fails(Drift(k), observed, approved, vex);
        assert !Fails(StaleException(k), observed, approved, vex) && !Fails(StaleVex(k), observed, approved, vex);
        if k in observed {
          var declared := PolicyFinding(k, approved, vex).value;
          assert declared.key == k && observed[k].key == k;
        }
      }
    }
  }

  lemma UnionIsCovered(p: Policy, reports: map<string, Report>, observed: Findings, approved: Findings, vex: Findings)
    requires HoldsAll(observed, AllObserved(reports))
    requires Holds(approved, Excepted(p.exceptions)) && Holds(vex, Assessed(p.vex)) && DistinctKeys(Excepted(p.exceptions) + Assessed(p.vex))
    ensures observed == approved + vex <==> Covered(p, reports)
  {
    var declared := Excepted(p.exceptions) + Assessed(p.vex);
    UnionHolds(approved, vex, Excepted(p.exceptions), Assessed(p.vex));
    var union := approved + vex;
    if observed == union {
      forall f
        ensures Observed(reports, f) <==> f in declared
      {
        if Observed(reports, f) {
          assert f in AllObserved(reports);
          assert union[f.key] == f;
        }
        if f in declared {
          assert observed[f.key] == f && observed[f.key] in AllObserved(reports);
        }
      }
    }
    if Covered(p, reports) {
      SameHolds(observed, union, AllObserved(reports), declared);
    }
  }

  lemma SameHolds(a: Findings, b: Findings, seen: iset<Finding>, s: seq<Finding>)
    requires HoldsAll(a, seen) && Holds(b, s) && forall f :: f in seen <==> f in s
    ensures a == b
  {
  }

  // ---- the gate ----

  /** Passes exactly when policy and scan are in order and the observed findings are the excepted and the
      assessed ones, fixed versions included. */
  method Gate(p: Policy, order: seq<string>, reports: map<string, Report>, clock: Clock) returns (passed: bool)
    ensures passed <==> Accepts(p, reports, Images(order), clock)
  {
    var images := Images(order);
    var policy := ValidatePolicy(p, images, clock);
    if policy.Err? {
      return false;
    }
    var scan := ParseScanFindings(order, reports);
    if scan.Err? {
      return false;
    }
    var approved, vex, observed := policy.value.0, policy.value.1, scan.value;
    var failures := ValidateScan(observed, approved, vex);
    UnionIsCovered(p, reports, observed, approved, vex);
    UnionHolds(approved, vex, Excepted(p.exceptions), Assessed(p.vex));
    NothingFailsIff(observed, approved, vex);
    assert failures == [] <==> forall f :: f !in failures by {
      if failures != [] {
        assert failures[0] in failures;
      }
    }
    return failures == [];
  }

  lemma {:induction false} ExceptedAreNotCritical(groups: seq<Group>, images: set<string>, clock: Clock, maximumDays: int, f: Finding)
    requires (forall g | g in groups :: GroupOk(g, images, clock, maximumDays)) && f in Excepted(groups)
    ensures f.key.severity in {HIGH, UNKNOWN} && f.key.image in images
  {
    var before, g := groups[..|groups| - 1], groups[|groups| - 1];
    assert g in groups;
    if f in Excepted(before) {
      ExceptedAreNotCritical(before, images, clock, maximumDays, f);
    } else {
      var i :| 0 <= i < |g.findings| && GroupFindings(g)[i] == f;
      assert g.findings[i] in g.findings;
    }
  }

  /** A critical finding passes only under an assessment, never under an exception. */
  lemma CriticalNeedsAssessment(p: Policy, reports: map<string, Report>, images: set<string>, clock: Clock, f: Finding)
    requires Accepts(p, reports, images, clock) && Observed(reports, f) && f.key.severity == CRITICAL
    ensures f in Assessed(p.vex) && f !in Excepted(p.exceptions)
  {
    if f in Excepted(p.exceptions) {
      ExceptedAreNotCritical(p.exceptions, images, clock, p.maximumDays, f);
    }
  }

  /** No finding is declared twice, so each observed one is accounted for by exactly one declaration. */
  lemma DeclaredOnce(p: Policy, reports: map<string, Report>, images: set<string>, clock: Clock, i: nat, j: nat)
    requires Accepts(p, reports, images, clock)
    requires i < |Excepted(p.exceptions) + Assessed(p.vex)| && j < |Excepted(p.exceptions) + Assessed(p.vex)|
    requires (Excepted(p.exceptions) + Assessed(p.vex))[i].key == (Excepted(p.exceptions) + Assessed(p.vex))[j].key
    ensures i == j && Observed(reports, (Excepted(p.exceptions) + Assessed(p.vex))[i])
  {
  }

  /** The same images, in order or not alike, and the same findings. */
  ghost predicate SameFindings(a: map<string, Report>, b: map<string, Report>) {
    && a.Keys == b.Keys
    && (forall image | image in a :: ReportOk(a[image]) <==> ReportOk(b[image]))
    && forall f :: Observed(a, f) <==> Observed(b, f)
  }

  /** Nothing else about the reports matters to the gate. */
  lemma GateSeesFindings(p: Policy, a: map<string, Report>, b: map<string, Report>, images: set<string>, clock: Clock)
    requires SameFindings(a, b)
    ensures Accepts(p, a, images, clock) <==> Accepts(p, b, images, clock)
  {
  }

  ghost predicate Lists(report: Report, raw: Raw) {
    exists result :: result in report.results && result.Some? && raw in result.value
  }

  ghost predicate SameLists(a: Report, b: Report) {
    a.sound == b.sound && forall raw :: Lists(a, raw) <==> Lists(b, raw)
  }

  lemma ReportOkLists(report: Report)
    ensures ReportOk(report) <==> report.sound && forall raw | Lists(report, raw) :: RawOk(raw)
  {
    if ReportOk(report) {
      forall raw | Lists(report, raw)
        ensures RawOk(raw)
      {
        var result :| result in report.results && result.Some? && raw in result.value;
      }
    }
    if report.sound && forall raw | Lists(report, raw) :: RawOk(raw) {
      forall result | result in report.results && result.Some?
        ensures forall raw | raw in result.value :: RawOk(raw)
      {
        forall raw | raw in result.value
          ensures RawOk(raw)
        {
          assert Lists(report, raw);
        }
      }
    }
  }

  lemma ReportedLists(image: string, report: Report, f: Finding)
    ensures ReportedIn(image, report.results, f) <==> exists raw :: Lists(report, raw) && f == ToFinding(image, raw)
  {
    if ReportedIn(image, report.results, f) {
      var result :| result in report.results && Reports(image, result, f);
      var raw :| raw in result.value && f == ToFinding(image, raw);
      assert Lists(report, raw);
    }
    if raw :| Lists(report, raw) && f == ToFinding(image, raw) {
      var result :| result in report.results && result.Some? && raw in result.value;
      assert Reports(image, result, f);
    }
  }

  /** In whatever order the reports list vulnerabilities, in however many results, and however often. */
  lemma GateIgnoresOrder(p: Policy, a: map<string, Report>, b: map<string, Report>, images: set<string>, clock: Clock)
    requires a.Keys == b.Keys && forall image | image in a :: SameLists(a[image], b[image])
    ensures Accepts(p, a, images, clock) <==> Accepts(p, b, images, clock)
  {
    forall image | image in a
      ensures ReportOk(a[image]) <==> ReportOk(b[image])
    {
      ReportOkLists(a[image]);
      ReportOkLists(b[image]);
    }
    forall f
      ensures Observed(a, f) <==> Observed(b, f)
    {
      if f.key.image in a {
        ReportedLists(f.key.image, a[f.key.image], f);
        ReportedLists(f.key.image, b[f.key.image], f);
      }
    }
    GateSeesFindings(p, a, b, images, clock);
  }
  // ---- the gate in the fields of policy and reports ----

  /** A finding of an image as it stands in a policy or a report. */
  datatype Listed = Listed(image: string, raw: Raw)

  predicate SameKeyFields(a: Listed, b: Listed) {
    && a.image == b.image
    && a.raw.id == b.raw.id && a.raw.severity == b.raw.severity
    && a.raw.package == b.raw.package && a.raw.installed == b.raw.installed
  }

  predicate SameFields(a: Listed, b: Listed) {
    SameKeyFields(a, b) && a.raw.fixed == b.raw.fixed
  }

  /** Two of them are one finding exactly when image, id, severity, package, installed and fixed version agree, and
      have one key exactly when all but the fixed version do. */
  lemma SameFindingIff(a: Listed, b: Listed)
    ensures ToFinding(a.image, a.raw) == ToFinding(b.image, b.raw) <==> SameFields(a, b)
    ensures ToFinding(a.image, a.raw).key == ToFinding(b.image, b.raw).key <==> SameKeyFields(a, b)
  {
  }

  /** Everything a policy declares: the findings of its groups in order, then those of its VEX records. */
  function DeclaredIn(groups: seq<Group>): seq<Listed> {
    if groups == [] then []
    else
      var g := groups[|groups| - 1];
      DeclaredIn(groups[..|groups| - 1]) + seq(|g.findings|, i requires 0 <= i < |g.findings| => Listed(g.image, g.findings[i]))
  }

  function Declared(p: Policy): seq<Listed> {
    DeclaredIn(p.exceptions) + seq(|p.vex|, i requires 0 <= i < |p.vex| => Listed(p.vex[i].image, p.vex[i].finding))
  }

  lemma {:induction false} ExceptedAreDeclared(groups: seq<Group>)
    ensures |Excepted(groups)| == |DeclaredIn(groups)|
    ensures forall i | 0 <= i < |DeclaredIn(groups)| ::
      Excepted(groups)[i] == ToFinding(DeclaredIn(groups)[i].image, DeclaredIn(groups)[i].raw)
  {
    if groups != [] {
      ExceptedAreDeclared(groups[..|groups| - 1]);
    }
  }

  lemma FindingsAreDeclared(p: Policy)
    ensures var all := Excepted(p.exceptions) + Assessed(p.vex);
      |all| == |Declared(p)| && forall i | 0 <= i < |all| :: all[i] == ToFinding(Declared(p)[i].image, Declared(p)[i].raw)
  {
    ExceptedAreDeclared(p.exceptions);
  }

  predicate DeclaresOnce(p: Policy) {
    forall i, j | 0 <= i < j < |Declared(p)| :: !SameKeyFields(Declared(p)[i], Declared(p)[j])
  }

  lemma DistinctIffOnce(p: Policy)
    ensures DistinctKeys(Excepted(p.exceptions) + Assessed(p.vex)) <==> DeclaresOnce(p)
  {
    var all := Excepted(p.exceptions) + Assessed(p.vex);
    FindingsAreDeclared(p);
    forall i, j | 0 <= i < j < |all|
      ensures all[i].key == all[j].key <==> SameKeyFields(Declared(p)[i], Declared(p)[j])
    {
      SameFindingIff(Declared(p)[i], Declared(p)[j]);
    }
  }

  ghost predicate IsListed(reports: map<string, Report>, l: Listed) {
    l.image in reports && Lists(reports[l.image], l.raw)
  }

  ghost predicate HasDeclared(p: Policy, l: Listed) {
    exists d :: d in Declared(p) && SameFields(d, l)
  }

  ghost predicate HasListed(reports: map<string, Report>, d: Listed) {
    exists l :: IsListed(reports, l) && SameFields(d, l)
  }

  lemma DeclaredIff(p: Policy, l: Listed)
    ensures HasDeclared(p, l) <==> ToFinding(l.image, l.raw) in Excepted(p.exceptions) + Assessed(p.vex)
  {
    var all, f := Excepted(p.exceptions) + Assessed(p.vex), ToFinding(l.image, l.raw);
    FindingsAreDeclared(p);
    if d :| d in Declared(p) && SameFields(d, l) {
      var i :| 0 <= i < |Declared(p)| && Declared(p)[i] == d;
      SameFindingIff(d, l);
      assert all[i] == f;
    }
    if f in all {
      var i :| 0 <= i < |all| && all[i] == f;
      SameFindingIff(Declared(p)[i], l);
      assert Declared(p)[i] in Declared(p);
    }
  }

  lemma ObservedIff(reports: map<string, Report>, d: Listed)
    ensures HasListed(reports, d) <==> Observed(reports, ToFinding(d.image, d.raw))
  {
    var f := ToFinding(d.image, d.raw);
    if d.image in reports {
      ReportedLists(d.image, reports[d.image], f);
    }
    if l :| IsListed(reports, l) && SameFields(d, l) {
      SameFindingIff(d, l);
      ReportedLists(l.image, reports[l.image], f);
    }
    if Observed(reports, f) {
      var raw :| Lists(reports[d.image], raw) && f == ToFinding(d.image, raw);
      SameFindingIff(d, Listed(d.image, raw));
      assert IsListed(reports, Listed(d.image, raw));
    }
  }

  /** Whatever is observed is listed somewhere. */
  lemma ObservedIsListed(reports: map<string, Report>, f: Finding) returns (l: Listed)
    requires Observed(reports, f)
    ensures IsListed(reports, l) && f == ToFinding(l.image, l.raw)
  {
    ReportedLists(f.key.image, reports[f.key.image], f);
    var raw :| Lists(reports[f.key.image], raw) && f == ToFinding(f.key.image, raw);
    l := Listed(f.key.image, raw);
  }

  /** Every listed finding is declared with the same fields, and every declared one is listed with them. */
  ghost predicate Matches(p: Policy, reports: map<string, Report>) {
    && (forall l | IsListed(reports, l) :: HasDeclared(p, l))
    && forall d | d in Declared(p) :: HasListed(reports, d)
  }

  lemma CoveredMatches(p: Policy, reports: map<string, Report>)
    requires Covered(p, reports)
    ensures Matches(p, reports)
  {
    var all := Excepted(p.exceptions) + Assessed(p.vex);
    forall l | IsListed(reports, l)
      ensures HasDeclared(p, l)
    {
      assert SameFields(l, l) && HasListed(reports, l);
      ObservedIff(reports, l);
      DeclaredIff(p, l);
    }
    forall d | d in Declared(p)
      ensures HasListed(reports, d)
    {
      assert SameFields(d, d) && HasDeclared(p, d);
      DeclaredIff(p, d);
      ObservedIff(reports, d);
    }
  }

  lemma MatchesCovered(p: Policy, reports: map<string, Report>)
    requires Matches(p, reports)
    ensures Covered(p, reports)
  {
    var all := Excepted(p.exceptions) + Assessed(p.vex);
    FindingsAreDeclared(p);
    forall f
      ensures Observed(reports, f) <==> f in all
    {
      if Observed(reports, f) {
        var l := ObservedIsListed(reports, f);
        DeclaredIff(p, l);
      }
      if f in all {
        var i :| 0 <= i < |all| && all[i] == f;
        assert Declared(p)[i] in Declared(p);
        ObservedIff(reports, Declared(p)[i]);
      }
    }
  }

  // ---- what is in order ----

  /** Begun, not ended, with enough days left, and not longer than a review may last. */
  lemma WindowIsRefusedIff(w: Window, clock: Clock, maximumDays: int)
    ensures !WindowOk(w, clock, maximumDays) <==>
      || clock.today < w.start || w.end < clock.today
      || w.end < clock.today + clock.minimumDays || w.start + maximumDays < w.end
  {
  }

  predicate IsComplete(raw: Raw) {
    raw.typed && |raw.id| > 0 && |raw.package| > 0 && |raw.installed| > 0
  }

  predicate GroupInOrder(g: Group, images: set<string>, clock: Clock, maximumDays: int) {
    && g.sound && g.image in images && WindowOk(g.window, clock, maximumDays) && |g.findings| > 0
    && forall i | 0 <= i < |g.findings| ::
         IsComplete(g.findings[i]) && (g.findings[i].severity == HIGH || g.findings[i].severity == UNKNOWN)
  }

  predicate VexInOrder(v: Vex, images: set<string>, clock: Clock, maximumDays: int) {
    && v.sound && v.image in images && WindowOk(v.window, clock, maximumDays)
    && IsComplete(v.finding) && v.finding.severity != Unsupported
  }

  /** The file exists, says what it must, and lists only complete findings of a known severity. */
  ghost predicate ReportInOrder(report: Report) {
    report.sound && forall raw | Lists(report, raw) :: IsComplete(raw) && raw.severity != Unsupported
  }

  ghost predicate AgreesWithItself(reports: map<string, Report>) {
    forall a, b | IsListed(reports, a) && IsListed(reports, b) && SameKeyFields(a, b) :: a.raw.fixed == b.raw.fixed
  }

  lemma ConsistentIffAgrees(reports: map<string, Report>)
    ensures (forall f, g | Observed(reports, f) && Observed(reports, g) && f.key == g.key :: f == g) <==> AgreesWithItself(reports)
  {
    if forall f, g | Observed(reports, f) && Observed(reports, g) && f.key == g.key :: f == g {
      forall a, b | IsListed(reports, a) && IsListed(reports, b) && SameKeyFields(a, b)
        ensures a.raw.fixed == b.raw.fixed
      {
        assert SameFields(a, a) && SameFields(b, b) && HasListed(reports, a) && HasListed(reports, b);
        ObservedIff(reports, a);
        ObservedIff(reports, b);
        SameFindingIff(a, b);
      }
    }
    if AgreesWithItself(reports) {
      forall f, g | Observed(reports, f) && Observed(reports, g) && f.key == g.key
        ensures f == g
      {
        var a := ObservedIsListed(reports, f);
        var b := ObservedIsListed(reports, g);
        SameFindingIff(a, b);
      }
    }
  }

  lemma PolicyIff(p: Policy, images: set<string>, clock: Clock)
    ensures PolicyOk(p, images, clock) <==>
      && (forall g | g in p.exceptions :: GroupInOrder(g, images, clock, p.maximumDays))
      && (forall v | v in p.vex :: VexInOrder(v, images, clock, p.maximumDays))
      && DeclaresOnce(p)
  {
    forall g
      ensures GroupOk(g, images, clock, p.maximumDays) <==> GroupInOrder(g, images, clock, p.maximumDays)
    {
      GroupMeans(g, images, clock, p.maximumDays);
    }
    DistinctIffOnce(p);
  }

  lemma ScanIff(reports: map<string, Report>, images: set<string>)
    ensures ScanOk(reports, images) <==>
      reports.Keys == images && (forall image | image in reports :: ReportInOrder(reports[image])) && AgreesWithItself(reports)
  {
    forall image | image in reports
      ensures ReportOk(reports[image]) <==> ReportInOrder(reports[image])
    {
      ReportOkLists(reports[image]);
    }
    ConsistentIffAgrees(reports);
  }

  /** The gate, without keys or dictionaries: groups and records in order, nothing declared twice, one report in
      order for each image, no two observations of one package that disagree about the fix, and the same findings,
      field by field, declared and listed. */
  lemma PassesIff(p: Policy, reports: map<string, Report>, images: set<string>, clock: Clock)
    ensures Accepts(p, reports, images, clock) <==>
      && (forall g | g in p.exceptions :: GroupInOrder(g, images, clock, p.maximumDays))
      && (forall v | v in p.vex :: VexInOrder(v, images, clock, p.maximumDays))
      && DeclaresOnce(p)
      && reports.Keys == images && (forall image | image in reports :: ReportInOrder(reports[image]))
      && AgreesWithItself(reports)
      && Matches(p, reports)
  {
    PolicyIff(p, images, clock);
    ScanIff(reports, images);
    if Covered(p, reports) {
      CoveredMatches(p, reports);
    }
    if Matches(p, reports) {
      MatchesCovered(p, reports);
    }
  }

  lemma GroupMeans(g: Group, images: set<string>, clock: Clock, maximumDays: int)
    ensures GroupOk(g, images, clock, maximumDays) <==> GroupInOrder(g, images, clock, maximumDays)
  {
    if GroupInOrder(g, images, clock, maximumDays) {
      forall raw | raw in g.findings
        ensures ExceptionOk(raw)
      {
        var i :| 0 <= i < |g.findings| && g.findings[i] == raw;
      }
    }
    if GroupOk(g, images, clock, maximumDays) {
      forall i | 0 <= i < |g.findings|
        ensures IsComplete(g.findings[i]) && (g.findings[i].severity == HIGH || g.findings[i].severity == UNKNOWN)
      {
        assert g.findings[i] in g.findings;
      }
    }
  }
}
