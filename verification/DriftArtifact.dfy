/** `build_artifact`: per-cluster tallies of a fleet result, and what they add up to. */
module DriftArtifact {
  import opened Basics
  import opened StableSort
  import opened Counting
  import opened DriftFleet

  datatype Tally = Tally(high: nat, medium: nat, low: nat, clean: nat, error: nat)

  /** A cluster table such as `CLUSTERS`: names with their slugs */
  type Table = seq<(string, seq<string>)>

  function Names(table: Table): set<string> {
    set row | row in table :: row.0
  }

  /** `_SLUG_TO_CLUSTER`: of two rows with one slug the later one counts. */
  function SlugIndex(table: Table): map<string, string> {
    if table == [] then map[]
    else
      var row := table[|table| - 1];
      SlugIndex(table[..|table| - 1]) + (map slug | slug in row.1 :: row.0)
  }

  lemma {:induction false} IndexedNames(table: Table)
    ensures forall slug :: slug in SlugIndex(table) ==> SlugIndex(table)[slug] in Names(table)
  {
    if table != [] {
      IndexedNames(table[..|table| - 1]);
      assert table == table[..|table| - 1] + [table[|table| - 1]];
    }
  }

  /** `entry.get("cluster") or cluster_for_slug(entry.get("slug"))` */
  function Owner(index: map<string, string>, tag: Option<string>, slug: string): Option<string> {
    if tag.Some? && tag.value != "" then tag else ClusterOf(index, slug)
  }

  function FindingOwner(index: map<string, string>, f: Tagged): Option<string> {
    Owner(index, f.cluster, f.finding.slug)
  }

  predicate OwnedBy(owner: Option<string>, names: set<string>) {
    owner.Some? && owner.value in names
  }

  /** The finding is counted under the cluster and the severity. */
  function Bucket(index: map<string, string>, c: string, severity: string): Tagged -> bool {
    (f: Tagged) => FindingOwner(index, f) == Some(c) && f.finding.severity == severity
  }

  function ErrorIn(index: map<string, string>, c: string): FleetError -> bool {
    (e: FleetError) => Owner(index, e.cluster, e.slug) == Some(c)
  }

  function CleanIn(index: map<string, string>, c: string, busy: set<string>): string -> bool {
    (slug: string) => ClusterOf(index, slug) == Some(c) && slug !in busy
  }

  /** `slugs_with_findings` */
  function SlugsWithFindings(index: map<string, string>, names: set<string>, fs: seq<Tagged>): set<string> {
    set f | f in fs && OwnedBy(FindingOwner(index, f), names) :: f.finding.slug
  }

  /** `error_slugs` */
  function SlugsWithErrors(errors: seq<FleetError>): set<string> {
    set e | e in errors :: e.slug
  }

  function Busy(index: map<string, string>, names: set<string>, r: FleetResult): set<string> {
    SlugsWithFindings(index, names, r.findings) + SlugsWithErrors(r.errors)
  }

  function SeverityTally(index: map<string, string>, c: string, fs: seq<Tagged>): Tally {
    Tally(Count(Bucket(index, c, "HIGH"), fs), Count(Bucket(index, c, "MEDIUM"), fs), Count(Bucket(index, c, "LOW"), fs), 0, 0)
  }

  function TallyOf(index: map<string, string>, names: set<string>, r: FleetResult, c: string): Tally {
    SeverityTally(index, c, r.findings).(
      clean := Count(CleanIn(index, c, Busy(index, names, r)), r.reviewed),
      error := Count(ErrorIn(index, c), r.errors))
  }

  method BuildArtifact(table: Table, r: FleetResult) returns (clusters: map<string, Tally>)
    ensures clusters.Keys == Names(table) && forall c :: c in clusters <==> exists row :: row in table && row.0 == c
    ensures forall c :: c in clusters ==> Tallied(SlugIndex(table), clusters.Keys, r, c, clusters[c])
    ensures forall c :: c in clusters ==> clusters[c] == TallyOf(SlugIndex(table), Names(table), r, c)
  {
    hide Busy, SlugsWithErrors, Tallied, TallyOf, SeverityTally;
    var names, index := Names(table), SlugIndex(table);
    var withFindings, errorSlugs;
    forall c { TallyParts(index, names, r, c); }
    clusters, withFindings := CountFindings(index, names, r.findings);
    clusters, errorSlugs := CountErrors(index, clusters, r.errors);
    BusyIs(index, names, r);
    clusters := CountClean(index, clusters, r.reviewed, withFindings + errorSlugs);
    forall c { TallyIs(index, names, r, c); }
  }

  lemma TallyParts(index: map<string, string>, names: set<string>, r: FleetResult, c: string)
    ensures TallyOf(index, names, r, c) ==
            SeverityTally(index, c, r.findings).(
              error := Count(ErrorIn(index, c), r.errors),
              clean := Count(CleanIn(index, c, Busy(index, names, r)), r.reviewed))
    ensures SeverityTally(index, c, r.findings).clean == 0 && SeverityTally(index, c, r.findings).error == 0
  {
  }

  // ----- The tallies in terms of the result's lists -----

  /** An entry counts for the cluster it is tagged with; an entry without a tag, for the cluster of its slug. */
  ghost predicate Belongs(index: map<string, string>, tag: Option<string>, slug: string, c: string) {
    if tag.Some? && tag.value != "" then tag.value == c else slug in index && index[slug] == c
  }

  ghost predicate HasSeverity(index: map<string, string>, f: Tagged, c: string, severity: string) {
    Belongs(index, f.cluster, f.finding.slug, c) && f.finding.severity == severity
  }

  /** The slug has a finding that belongs to an existing cluster. */
  ghost predicate HasFinding(index: map<string, string>, names: set<string>, fs: seq<Tagged>, slug: string) {
    exists f, c :: f in fs && c in names && f.finding.slug == slug && Belongs(index, f.cluster, slug, c)
  }

  ghost predicate HasError(errors: seq<FleetError>, slug: string) {
    exists e :: e in errors && e.slug == slug
  }

  /** The counts of one cluster: its findings of each severity, its errors, and its reviewed slugs that have neither
      findings nor errors. */
  ghost predicate Tallied(index: map<string, string>, names: set<string>, r: FleetResult, c: string, t: Tally) {
    && t.high == |set i | 0 <= i < |r.findings| && HasSeverity(index, r.findings[i], c, "HIGH")|
    && t.medium == |set i | 0 <= i < |r.findings| && HasSeverity(index, r.findings[i], c, "MEDIUM")|
    && t.low == |set i | 0 <= i < |r.findings| && HasSeverity(index, r.findings[i], c, "LOW")|
    && t.error == |set i | 0 <= i < |r.errors| && Belongs(index, r.errors[i].cluster, r.errors[i].slug, c)|
    && t.clean == |set i | 0 <= i < |r.reviewed| && Belongs(index, None, r.reviewed[i], c)
                           && !HasFinding(index, names, r.findings, r.reviewed[i]) && !HasError(r.errors, r.reviewed[i])|
  }

  lemma SeverityCount(index: map<string, string>, c: string, severity: string, fs: seq<Tagged>)
    ensures Count(Bucket(index, c, severity), fs) == |set i | 0 <= i < |fs| && HasSeverity(index, fs[i], c, severity)|
  {
    CountAt(Bucket(index, c, severity), fs, set i | 0 <= i < |fs| && HasSeverity(index, fs[i], c, severity));
  }

  lemma ErrorCount(index: map<string, string>, c: string, errors: seq<FleetError>)
    ensures Count(ErrorIn(index, c), errors) ==
            |set i | 0 <= i < |errors| && Belongs(index, errors[i].cluster, errors[i].slug, c)|
  {
    CountAt(ErrorIn(index, c), errors, set i | 0 <= i < |errors| && Belongs(index, errors[i].cluster, errors[i].slug, c));
  }

  lemma BusyReads(index: map<string, string>, names: set<string>, r: FleetResult, slug: string)
    ensures slug in Busy(index, names, r) <==> HasFinding(index, names, r.findings, slug) || HasError(r.errors, slug)
  {
    if slug in SlugsWithFindings(index, names, r.findings) {
      var f :| f in r.findings && OwnedBy(FindingOwner(index, f), names) && f.finding.slug == slug;
      assert Belongs(index, f.cluster, slug, FindingOwner(index, f).value);
    }
    if f, c :| f in r.findings && c in names && f.finding.slug == slug && Belongs(index, f.cluster, slug, c) {
      assert FindingOwner(index, f) == Some(c);
    }
  }

  lemma CleanCount(index: map<string, string>, names: set<string>, r: FleetResult, c: string)
    ensures Count(CleanIn(index, c, Busy(index, names, r)), r.reviewed) ==
            |set i | 0 <= i < |r.reviewed| && Belongs(index, None, r.reviewed[i], c)
                     && !HasFinding(index, names, r.findings, r.reviewed[i]) && !HasError(r.errors, r.reviewed[i])|
  {
    hide Busy, HasFinding, HasError;
    forall slug { BusyReads(index, names, r, slug); }
    CountAt(CleanIn(index, c, Busy(index, names, r)), r.reviewed,
            set i | 0 <= i < |r.reviewed| && Belongs(index, None, r.reviewed[i], c)
                    && !HasFinding(index, names, r.findings, r.reviewed[i]) && !HasError(r.errors, r.reviewed[i]));
  }

  lemma TallyIs(index: map<string, string>, names: set<string>, r: FleetResult, c: string)
    ensures Tallied(index, names, r, c, TallyOf(index, names, r, c))
  {
    hide Count, HasSeverity, Belongs, HasFinding, HasError, Busy;
    SeverityCount(index, c, "HIGH", r.findings);
    SeverityCount(index, c, "MEDIUM", r.findings);
    SeverityCount(index, c, "LOW", r.findings);
    ErrorCount(index, c, r.errors);
    CleanCount(index, names, r, c);
  }

  /** A slug belongs to the last row of the table that lists it. */
  lemma {:induction false} SlugIndexIs(table: Table, s: string)
    ensures s in SlugIndex(table) <==> exists i :: 0 <= i < |table| && s in table[i].1
    ensures forall i | 0 <= i < |table| && s in table[i].1 && (forall j :: i < j < |table| ==> s !in table[j].1) ::
              s in SlugIndex(table) && SlugIndex(table)[s] == table[i].0
  {
    if table != [] {
      var n := |table| - 1;
      SlugIndexIs(table[..n], s);
      assert forall i :: 0 <= i < n ==> table[..n][i] == table[i];
    }
  }

  lemma BusyIs(index: map<string, string>, names: set<string>, r: FleetResult)
    ensures Busy(index, names, r) == SlugsWithFindings(index, names, r.findings) + SlugsWithErrors(r.errors)
  {
  }

  /** The loop over the findings */
  method CountFindings(index: map<string, string>, names: set<string>, fs: seq<Tagged>)
    returns (clusters: map<string, Tally>, withFindings: set<string>)
    ensures clusters.Keys == names
    ensures forall c :: c in names ==> clusters[c] == SeverityTally(index, c, fs)
    ensures withFindings == SlugsWithFindings(index, names, fs)
  {
    EmptyTallies(index, names);
    hide SeverityTally, SlugsWithFindings, FindingOwner, AddSeverity;
    clusters := map c | c in names :: Tally(0, 0, 0, 0, 0);
    withFindings := {};
    var i := 0;
    while i < |fs|
      invariant i <= |fs| && clusters.Keys == names
      invariant forall c :: c in names ==> clusters[c] == SeverityTally(index, c, fs[..i])
      invariant withFindings == SlugsWithFindings(index, names, fs[..i])
    {
      assert fs[..i + 1] == fs[..i] + [fs[i]];
      var f := fs[i];
      TallyStep(index, names, fs[..i], f);
      var owner := FindingOwner(index, f);
      if OwnedBy(owner, names) {
        var t := clusters[owner.value];
        clusters := clusters[owner.value := AddSeverity(t, f.finding.severity)];
        withFindings := withFindings + {f.finding.slug};
      }
      i := i + 1;
    }
    assert fs[..i] == fs;
  }

  lemma EmptyTallies(index: map<string, string>, names: set<string>)
    ensures forall c :: c in names ==> SeverityTally(index, c, []) == Tally(0, 0, 0, 0, 0)
    ensures SlugsWithFindings(index, names, []) == {}
  {
  }

  lemma TallyStep(index: map<string, string>, names: set<string>, fs: seq<Tagged>, f: Tagged)
    ensures forall c :: SeverityTally(index, c, fs + [f]) ==
                        if FindingOwner(index, f) == Some(c) then AddSeverity(SeverityTally(index, c, fs), f.finding.severity)
                        else SeverityTally(index, c, fs)
    ensures SlugsWithFindings(index, names, fs + [f]) ==
            SlugsWithFindings(index, names, fs) + if OwnedBy(FindingOwner(index, f), names) then {f.finding.slug} else {}
  {
    hide FindingOwner;
    assert (fs + [f])[..|fs|] == fs;
  }

  /** `clusters[cluster][bucket] += 1`, for the known severities */
  function AddSeverity(t: Tally, severity: string): Tally {
    if severity == "HIGH" then t.(high := t.high + 1)
    else if severity == "MEDIUM" then t.(medium := t.medium + 1)
    else if severity == "LOW" then t.(low := t.low + 1)
    else t
  }

  lemma NoErrors(index: map<string, string>)
    ensures forall c :: Count(ErrorIn(index, c), []) == 0
    ensures SlugsWithErrors([]) == {}
  {
  }

  lemma ErrorStep(index: map<string, string>, errors: seq<FleetError>, e: FleetError)
    ensures forall c :: Count(ErrorIn(index, c), errors + [e]) ==
                        Count(ErrorIn(index, c), errors) + if Owner(index, e.cluster, e.slug) == Some(c) then 1 else 0
    ensures SlugsWithErrors(errors + [e]) == SlugsWithErrors(errors) + {e.slug}
  {
    hide Owner;
    assert (errors + [e])[..|errors|] == errors;
  }

  /** The loop over the errors */
  method CountErrors(index: map<string, string>, before: map<string, Tally>, errors: seq<FleetError>)
    returns (clusters: map<string, Tally>, errorSlugs: set<string>)
    requires forall c :: c in before ==> before[c].error == 0
    ensures clusters.Keys == before.Keys
    ensures forall c :: c in clusters ==> clusters[c] == before[c].(error := Count(ErrorIn(index, c), errors))
    ensures errorSlugs == SlugsWithErrors(errors)
  {
    hide ErrorIn, SlugsWithErrors, Owner;
    clusters, errorSlugs := before, {};
    NoErrors(index);
    var i := 0;
    while i < |errors|
      invariant i <= |errors| && clusters.Keys == before.Keys
      invariant forall c :: c in clusters ==> clusters[c] == before[c].(error := Count(ErrorIn(index, c), errors[..i]))
      invariant errorSlugs == SlugsWithErrors(errors[..i])
    {
      assert errors[..i + 1] == errors[..i] + [errors[i]];
      var e := errors[i];
      ErrorStep(index, errors[..i], e);
      var owner := Owner(index, e.cluster, e.slug);
      if OwnedBy(owner, clusters.Keys) {
        var t := clusters[owner.value];
        clusters := clusters[owner.value := t.(error := t.error + 1)];
      }
      errorSlugs := errorSlugs + {e.slug};
      i := i + 1;
    }
    assert errors[..i] == errors;
  }

  lemma NothingClean(index: map<string, string>, busy: set<string>)
    ensures forall c :: Count(CleanIn(index, c, busy), []) == 0
  {
  }

  lemma CleanStep(index: map<string, string>, busy: set<string>, reviewed: seq<string>, slug: string)
    ensures forall c :: Count(CleanIn(index, c, busy), reviewed + [slug]) ==
                        Count(CleanIn(index, c, busy), reviewed)
                        + if ClusterOf(index, slug) == Some(c) && slug !in busy then 1 else 0
  {
    hide ClusterOf;
    assert (reviewed + [slug])[..|reviewed|] == reviewed;
  }

  /** The loop over the reviewed slugs */
  method CountClean(index: map<string, string>, before: map<string, Tally>, reviewed: seq<string>, busy: set<string>)
    returns (clusters: map<string, Tally>)
    requires forall c :: c in before ==> before[c].clean == 0
    ensures clusters.Keys == before.Keys
    ensures forall c :: c in clusters ==> clusters[c] == before[c].(clean := Count(CleanIn(index, c, busy), reviewed))
  {
    hide CleanIn, ClusterOf;
    clusters := before;
    NothingClean(index, busy);
    var i := 0;
    while i < |reviewed|
      invariant i <= |reviewed| && clusters.Keys == before.Keys
      invariant forall c :: c in clusters ==> clusters[c] == before[c].(clean := Count(CleanIn(index, c, busy), reviewed[..i]))
    {
      assert reviewed[..i + 1] == reviewed[..i] + [reviewed[i]];
      CleanStep(index, busy, reviewed[..i], reviewed[i]);
      var slug := reviewed[i];
      var owner := ClusterOf(index, slug);
      if OwnedBy(owner, clusters.Keys) && slug !in busy {
        var t := clusters[owner.value];
        clusters := clusters[owner.value := t.(clean := t.clean + 1)];
      }
      i := i + 1;
    }
    assert reviewed[..i] == reviewed;
  }

  // ----- What the tallies add up to -----

  // The units of one cluster, by how their review ended

  predicate InCluster(index: map<string, string>, c: string, u: Unit) {
    ClusterOf(index, u.slug) == Some(c)
  }

  function UnitsIn(index: map<string, string>, c: string): Unit -> bool {
    (u: Unit) => InCluster(index, c, u)
  }

  function FailedIn(index: map<string, string>, c: string): Unit -> bool {
    (u: Unit) => InCluster(index, c, u) && u.outcome.Failed?
  }

  function QuietIn(index: map<string, string>, c: string): Unit -> bool {
    (u: Unit) => InCluster(index, c, u) && u.outcome == Reviewed([])
  }

  function FindingIn(index: map<string, string>, c: string): Unit -> bool {
    (u: Unit) => InCluster(index, c, u) && u.outcome.Reviewed? && u.outcome.findings != []
  }

  lemma {:induction false} UnitsSplit(index: map<string, string>, c: string, units: seq<Unit>)
    ensures Count(QuietIn(index, c), units) + Count(FailedIn(index, c), units) + Count(FindingIn(index, c), units)
            == Count(UnitsIn(index, c), units)
  {
    hide InCluster;
    if units != [] {
      UnitsSplit(index, c, units[..|units| - 1]);
    }
  }

  lemma {:induction false} ErrorsAreFailures(index: map<string, string>, c: string, units: seq<Unit>)
    ensures Count(ErrorIn(index, c), ErrorsOf(index, units)) == Count(FailedIn(index, c), units)
  {
    if units != [] {
      var front, u := units[..|units| - 1], units[|units| - 1];
      ErrorsAreFailures(index, c, front);
      if u.outcome.Failed? {
        var e := FleetError(u.slug, ClusterOf(index, u.slug), u.outcome.message);
        CountOneMore(ErrorIn(index, c), ErrorsOf(index, front), e);
      } else {
        assert ErrorsOf(index, units) == ErrorsOf(index, front);
      }
    }
  }

  function ReviewedClean(index: map<string, string>, c: string, busy: set<string>): Unit -> bool {
    (u: Unit) => u.outcome.Reviewed? && CleanIn(index, c, busy)(u.slug)
  }

  lemma {:induction false} CleanAreUnits(index: map<string, string>, c: string, busy: set<string>, units: seq<Unit>)
    ensures Count(CleanIn(index, c, busy), ReviewedOf(units)) == Count(ReviewedClean(index, c, busy), units)
  {
    hide CleanIn;
    if units != [] {
      var front, u := units[..|units| - 1], units[|units| - 1];
      CleanAreUnits(index, c, busy, front);
      if u.outcome.Reviewed? {
        CountOneMore(CleanIn(index, c, busy), ReviewedOf(front), u.slug);
      } else {
        assert ReviewedOf(units) == ReviewedOf(front);
      }
    }
  }

  lemma {:induction false} ErrorMembers(index: map<string, string>, units: seq<Unit>, slug: string)
    ensures slug in SlugsWithErrors(ErrorsOf(index, units)) <==>
            exists u :: u in units && u.outcome.Failed? && u.slug == slug
  {
    hide ClusterOf, SlugsWithErrors;
    if units == [] {
      NoErrors(index);
    } else {
      var front, u := units[..|units| - 1], units[|units| - 1];
      assert units == front + [u];
      ErrorMembers(index, front, slug);
      var e := FleetError(u.slug, ClusterOf(index, u.slug), if u.outcome.Failed? then u.outcome.message else "");
      ErrorStep(index, ErrorsOf(index, front), e);
      assert ErrorsOf(index, units) == if u.outcome.Failed? then ErrorsOf(index, front) + [e] else ErrorsOf(index, front);
    }
  }

  function Fleet(table: Table, units: seq<Unit>): FleetResult {
    var index := SlugIndex(table);
    FleetResult(FleetFindings(index, units), ErrorsOf(index, units), ReviewedOf(units))
  }

  /** The slugs with findings in cluster `c`: those of the units in `c` that reported something. */
  lemma SlugHasFindings(table: Table, units: seq<Unit>, slug: string)
    requires DistinctSlugs(units) && forall u :: u in units ==> OwnSlug(u)
    ensures slug in SlugsWithFindings(SlugIndex(table), Names(table), FleetFindings(SlugIndex(table), units)) <==>
            exists u :: u in units && u.slug == slug && u.outcome.Reviewed? && u.outcome.findings != []
                        && ClusterOf(SlugIndex(table), slug).Some?
  {
    hide FleetFindings, Names, SlugIndex;
    IndexedNames(table);
    var index, fs := SlugIndex(table), FleetFindings(SlugIndex(table), units);
    if slug in SlugsWithFindings(index, Names(table), fs) {
      var f :| f in fs && OwnedBy(FindingOwner(index, f), Names(table)) && f.finding.slug == slug;
      FindingMembers(index, units, f);
      var u :| u in units && f in TaggedOf(index, u);
      assert f.finding in u.outcome.findings;
    }
    if u :| u in units && u.slug == slug && u.outcome.Reviewed? && u.outcome.findings != [] && ClusterOf(index, slug).Some? {
      var f := TaggedOf(index, u)[0];
      FindingMembers(index, units, f);
      assert u.outcome.findings[0] in u.outcome.findings;
    }
  }

  lemma {:induction false} SlugCount(p: Unit -> bool, units: seq<Unit>)
    requires DistinctSlugs(units)
    ensures |set u | u in units && p(u) :: u.slug| == Count(p, units)
  {
    if units != [] {
      var front, u := units[..|units| - 1], units[|units| - 1];
      SlugCount(p, front);
      assert units == front + [u];
      CountOneMore(p, front, u);
      hide Count;
      SlugsStep(p, front, u);
    }
  }

  lemma SlugsStep(p: Unit -> bool, front: seq<Unit>, u: Unit)
    requires DistinctSlugs(front + [u])
    ensures (set v | v in front + [u] && p(v) :: v.slug) ==
            (set v | v in front && p(v) :: v.slug) + if p(u) then {u.slug} else {}
    ensures u.slug !in set v | v in front && p(v) :: v.slug
  {
    forall v | v in front
      ensures v.slug != u.slug
    {
      var i :| 0 <= i < |front| && front[i] == v;
      assert (front + [u])[i] == v && (front + [u])[|front|] == u;
    }
  }

  /** Of distinct slugs whose reviewers report under their own slug, every one submitted in a cluster is counted there
      exactly once: as clean, as an error, or among the slugs with findings. */
  lemma ClusterConservation(table: Table, units: seq<Unit>, c: string)
    requires DistinctSlugs(units) && forall u :: u in units ==> OwnSlug(u)
    ensures var index, names := SlugIndex(table), Names(table);
            var r := Fleet(table, units);
            var t := TallyOf(index, names, r, c);
            var found := set s | s in SlugsWithFindings(index, names, r.findings) && ClusterOf(index, s) == Some(c);
            t.clean + t.error + |found| == Count(UnitsIn(index, c), units)
  {
    hide FleetFindings, Names, SlugIndex, SlugsWithFindings, SlugsWithErrors, Count;
    var index, names, r := SlugIndex(table), Names(table), Fleet(table, units);
    var found := set s | s in SlugsWithFindings(index, names, r.findings) && ClusterOf(index, s) == Some(c);
    UnitsSplit(index, c, units);
    ErrorsAreFailures(index, c, units);
    CleanAreUnits(index, c, Busy(index, names, r), units);
    CleanAreQuiet(table, units, c);
    SlugCount(FindingIn(index, c), units);
    FoundAreUnits(table, units, c);
  }

  lemma FoundAreUnits(table: Table, units: seq<Unit>, c: string)
    requires DistinctSlugs(units) && forall u :: u in units ==> OwnSlug(u)
    ensures var index := SlugIndex(table);
            (set s | s in SlugsWithFindings(index, Names(table), FleetFindings(index, units)) && ClusterOf(index, s) == Some(c))
            == set u | u in units && FindingIn(index, c)(u) :: u.slug
  {
    hide FleetFindings, Names, SlugIndex, SlugsWithFindings;
    forall slug { SlugHasFindings(table, units, slug); }
  }

  lemma OneUnitPerSlug(units: seq<Unit>, u: Unit)
    requires DistinctSlugs(units) && u in units
    ensures forall v :: v in units && v.slug == u.slug ==> v == u
  {
  }

  lemma CleanAreQuiet(table: Table, units: seq<Unit>, c: string)
    requires DistinctSlugs(units) && forall u :: u in units ==> OwnSlug(u)
    ensures var index := SlugIndex(table);
            Count(ReviewedClean(index, c, Busy(index, Names(table), Fleet(table, units))), units) == Count(QuietIn(index, c), units)
  {
    hide FleetFindings, Names, SlugIndex, SlugsWithFindings, SlugsWithErrors, Count;
    var index := SlugIndex(table);
    var busy := Busy(index, Names(table), Fleet(table, units));
    forall u | u in units
      ensures ReviewedClean(index, c, busy)(u) <==> QuietIn(index, c)(u)
    {
      SlugHasFindings(table, units, u.slug);
      ErrorMembers(index, units, u.slug);
      OneUnitPerSlug(units, u);
      assert CleanIn(index, c, busy)(u.slug) <==> ClusterOf(index, u.slug) == Some(c) && u.slug !in busy;
    }
    CountSame(ReviewedClean(index, c, busy), QuietIn(index, c), units);
  }

  // ----- Severities -----

  /** high + medium + low over the given clusters */
  ghost function SeveritySum(index: map<string, string>, names: set<string>, fs: seq<Tagged>): nat
    decreases |names|
  {
    if names == {} then 0
    else
      var c :| c in names;
      var t := SeverityTally(index, c, fs);
      t.high + t.medium + t.low + SeveritySum(index, names - {c}, fs)
  }

  predicate KnownSeverity(severity: string) {
    severity == "HIGH" || severity == "MEDIUM" || severity == "LOW"
  }

  function Counted(index: map<string, string>, names: set<string>): Tagged -> bool {
    (f: Tagged) => OwnedBy(FindingOwner(index, f), names) && KnownSeverity(f.finding.severity)
  }

  lemma {:induction false} OneClusterSum(index: map<string, string>, c: string, fs: seq<Tagged>)
    ensures var t := SeverityTally(index, c, fs);
            t.high + t.medium + t.low == Count(Counted(index, {c}), fs)
  {
    hide FindingOwner;
    if fs != [] {
      OneClusterSum(index, c, fs[..|fs| - 1]);
    }
  }

  /** Over all clusters the severities add up to the findings that an existing cluster owns. */
  lemma {:induction false} SeverityConservation(index: map<string, string>, names: set<string>, fs: seq<Tagged>)
    ensures SeveritySum(index, names, fs) == Count(Counted(index, names), fs)
    decreases |names|
  {
    hide FindingOwner, SeverityTally, Count;
    if names == {} {
      NothingCounted(index, fs);
    } else {
      var c :| c in names && SeveritySum(index, names, fs) ==
        SeverityTally(index, c, fs).high + SeverityTally(index, c, fs).medium + SeverityTally(index, c, fs).low
        + SeveritySum(index, names - {c}, fs);
      OneClusterSum(index, c, fs);
      SeverityConservation(index, names - {c}, fs);
      CountBySum(Counted(index, {c}), Counted(index, names - {c}), Counted(index, names), fs);
    }
  }

  lemma {:induction false} NothingCounted(index: map<string, string>, fs: seq<Tagged>)
    ensures Count(Counted(index, {}), fs) == 0
  {
    if fs != [] {
      NothingCounted(index, fs[..|fs| - 1]);
    }
  }

  /** If moreover every submitted slug is in the table and every finding has one of the three severities, high, medium
      and low over all clusters add up to the number of findings. */
  lemma AllFindingsCounted(table: Table, units: seq<Unit>)
    requires forall u :: u in units ==> OwnSlug(u) && u.slug in SlugIndex(table)
    requires forall u :: u in units && u.outcome.Reviewed? ==>
                           forall f :: f in u.outcome.findings ==> KnownSeverity(f.severity)
    ensures var fs := FleetFindings(SlugIndex(table), units);
            SeveritySum(SlugIndex(table), Names(table), fs) == |fs|
  {
    hide FleetFindings, Names, SlugIndex, Count, SeveritySum;
    var index, names := SlugIndex(table), Names(table);
    var fs := FleetFindings(index, units);
    IndexedNames(table);
    SeverityConservation(index, names, fs);
    forall f | f in fs
      ensures Counted(index, names)(f)
    {
      FindingMembers(index, units, f);
      var u :| u in units && f in TaggedOf(index, u);
      assert f.finding in u.outcome.findings && KnownSeverity(f.finding.severity);
      assert f.finding.slug == u.slug && f.cluster == ClusterOf(index, u.slug) == Some(index[u.slug]);
      assert FindingOwner(index, f) == Some(index[u.slug]);
    }
    CountAll(Counted(index, names), fs);
  }

  // ----- Tables that partition the slugs -----

  /** Rows have distinct names, and no slug is listed twice. */
  ghost predicate Partition(table: Table) {
    && (forall i, j :: 0 <= i < j < |table| ==> table[i].0 != table[j].0 && NoneShared(table[i].1, table[j].1))
    && (forall i :: 0 <= i < |table| ==> NoRepetition(table[i].1))
  }

  ghost predicate NoneShared(a: seq<string>, b: seq<string>) {
    forall s :: s in a ==> s !in b
  }

  lemma IndexStep(table: Table, s: string)
    requires table != []
    ensures var front, last := SlugIndex(table[..|table| - 1]), table[|table| - 1];
            ClusterOf(SlugIndex(table), s) == if s in last.1 then Some(last.0) else ClusterOf(front, s)
  {
  }

  lemma FrontRows(table: Table, i: nat, s: string)
    requires Partition(table) && i < |table| - 1
    ensures Partition(table[..|table| - 1]) && table[i].0 != table[|table| - 1].0
    ensures s in table[i].1 ==> s !in table[|table| - 1].1
  {
    hide NoRepetition;
  }

  lemma LastName(table: Table)
    requires Partition(table) && table != []
    ensures table[|table| - 1].0 !in Names(table[..|table| - 1])
  {
    hide NoRepetition, NoneShared;
  }

  lemma {:induction false} PartitionIndex(table: Table, i: nat, s: string)
    requires Partition(table) && i < |table|
    ensures s in table[i].1 <==> ClusterOf(SlugIndex(table), s) == Some(table[i].0)
  {
    hide Partition, SlugIndex, Names;
    var front := table[..|table| - 1];
    IndexStep(table, s);
    if i < |front| {
      FrontRows(table, i, s);
      PartitionIndex(front, i, s);
      assert front[i] == table[i];
    } else {
      LastName(table);
      IndexedNames(front);
    }
  }

  lemma {:induction false} ListSize(xs: seq<string>)
    requires NoRepetition(xs)
    ensures |set s | s in xs| == |xs|
  {
    if xs != [] {
      var front, last := xs[..|xs| - 1], xs[|xs| - 1];
      ListSize(front);
      assert (set s | s in xs) == (set s | s in front) + {last};
    }
  }

  /** For a table such as `CLUSTERS` the index gives every cluster exactly the slugs of its row. */
  lemma ClusterSize(table: Table, i: nat)
    requires Partition(table) && i < |table|
    ensures |set s | s in SlugIndex(table) && SlugIndex(table)[s] == table[i].0| == |table[i].1|
  {
    var row := table[i];
    ListSize(row.1);
    hide SlugIndex, Partition;
    forall s { PartitionIndex(table, i, s); }
    assert (set s | s in SlugIndex(table) && SlugIndex(table)[s] == row.0) == set s | s in row.1;
  }

  /** A sweep over all slugs of the table: clean, errors and slugs with findings add up to the slugs of each cluster. */
  lemma FullSweepConservation(table: Table, units: seq<Unit>, i: nat)
    requires DistinctSlugs(units) && forall u :: u in units ==> OwnSlug(u)
    requires Partition(table) && i < |table|
    requires (set u | u in units :: u.slug) == SlugIndex(table).Keys
    ensures var index, names, c := SlugIndex(table), Names(table), table[i].0;
            var r := Fleet(table, units);
            var t := TallyOf(index, names, r, c);
            var found := set s | s in SlugsWithFindings(index, names, r.findings) && ClusterOf(index, s) == Some(c);
            t.clean + t.error + |found| == |table[i].1|
  {
    hide FleetFindings, Names, SlugIndex, SlugsWithFindings, TallyOf, Fleet, Partition;
    var index, c := SlugIndex(table), table[i].0;
    ClusterConservation(table, units, c);
    ClusterSize(table, i);
    SlugCount(UnitsIn(index, c), units);
    assert (set s | s in index && index[s] == c) == set u | u in units && UnitsIn(index, c)(u) :: u.slug;
  }
}
