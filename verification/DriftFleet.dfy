/** `run_fleet`: units complete in any order; what they find is collected, tagged and sorted. */
module DriftFleet {
  import opened Basics
  import opened StableSort

  /** A finding with the seven keys that `validate_finding` demands */
  datatype Finding = Finding(
    severity: string, slug: string, requirement: string, drift: string,
    evidence: string, triage: string, rationale: string)

  /** A finding with the cluster of the unit that reported it */
  datatype Tagged = Tagged(finding: Finding, cluster: Option<string>)

  datatype Outcome = Reviewed(findings: seq<Finding>) | Failed(message: string)

  /** One submitted slug and what became of its review */
  datatype Unit = Unit(slug: string, outcome: Outcome)

  datatype FleetError = FleetError(slug: string, cluster: Option<string>, message: string)

  datatype FleetResult = FleetResult(findings: seq<Tagged>, errors: seq<FleetError>, reviewed: seq<string>)

  /** `cluster_for_slug` on the reverse index */
  function ClusterOf(index: map<string, string>, slug: string): Option<string> {
    if slug in index then Some(index[slug]) else None
  }

  /** `_severity_index` */
  function SeverityIndex(severity: string): int {
    if severity == "HIGH" then 0
    else if severity == "MEDIUM" then 1
    else if severity == "LOW" then 2
    else 3
  }

  /** The sort key of findings: slug, then severity */
  predicate FindingLe(a: Tagged, b: Tagged) {
    var x, y := a.finding, b.finding;
    || (StringLe(x.slug, y.slug) && !StringLe(y.slug, x.slug))
    || (StringLe(x.slug, y.slug) && StringLe(y.slug, x.slug) && SeverityIndex(x.severity) <= SeverityIndex(y.severity))
  }

  /** The findings one unit contributes */
  function TaggedOf(index: map<string, string>, u: Unit): seq<Tagged> {
    if u.outcome.Failed? then []
    else seq(|u.outcome.findings|, i requires 0 <= i < |u.outcome.findings| =>
               Tagged(u.outcome.findings[i], ClusterOf(index, u.slug)))
  }

  function Collected(index: map<string, string>, units: seq<Unit>): seq<Tagged> {
    if units == [] then []
    else Collected(index, units[..|units| - 1]) + TaggedOf(index, units[|units| - 1])
  }

  function ErrorsOf(index: map<string, string>, units: seq<Unit>): seq<FleetError> {
    if units == [] then []
    else
      var u := units[|units| - 1];
      ErrorsOf(index, units[..|units| - 1])
      + if u.outcome.Failed? then [FleetError(u.slug, ClusterOf(index, u.slug), u.outcome.message)] else []
  }

  function ReviewedOf(units: seq<Unit>): seq<string> {
    if units == [] then []
    else
      var u := units[|units| - 1];
      ReviewedOf(units[..|units| - 1]) + if u.outcome.Reviewed? then [u.slug] else []
  }

  function FleetFindings(index: map<string, string>, units: seq<Unit>): seq<Tagged> {
    Sort(FindingLe, Collected(index, units))
  }

  /** The loop over `as_completed`: `units` in the order in which they complete */
  method RunFleet(index: map<string, string>, units: seq<Unit>) returns (r: FleetResult)
    ensures r == FleetResult(FleetFindings(index, units), ErrorsOf(index, units), ReviewedOf(units))
  {
    var findings: seq<Tagged>, errors: seq<FleetError>, reviewed: seq<string> := [], [], [];
    var i := 0;
    while i < |units|
      invariant i <= |units|
      invariant findings == Collected(index, units[..i])
      invariant errors == ErrorsOf(index, units[..i]) && reviewed == ReviewedOf(units[..i])
    {
      var u := units[i];
      assert units[..i + 1][..i] == units[..i];
      var cluster := ClusterOf(index, u.slug);
      match u.outcome {
        case Failed(message) =>
          errors := errors + [FleetError(u.slug, cluster, message)];
        case Reviewed(found) =>
          reviewed := reviewed + [u.slug];
          var tagged := TagFindings(found, cluster);
          findings := findings + tagged;
      }
      i := i + 1;
    }
    assert units[..i] == units;
    return FleetResult(Sort(FindingLe, findings), errors, reviewed);
  }

  /** The inner loop over the findings of one unit */
  method TagFindings(found: seq<Finding>, cluster: Option<string>) returns (tagged: seq<Tagged>)
    ensures tagged == seq(|found|, i requires 0 <= i < |found| => Tagged(found[i], cluster))
  {
    tagged := [];
    var k := 0;
    while k < |found|
      invariant k == |tagged| <= |found|
      invariant forall i :: 0 <= i < k ==> tagged[i] == Tagged(found[i], cluster)
    {
      tagged := tagged + [Tagged(found[k], cluster)];
      k := k + 1;
    }
  }

  // ----- Every unit lands exactly once -----

  function SlugsOf(units: seq<Unit>): seq<string> {
    if units == [] then [] else SlugsOf(units[..|units| - 1]) + [units[|units| - 1].slug]
  }

  function ErrorSlugs(errors: seq<FleetError>): seq<string> {
    if errors == [] then [] else ErrorSlugs(errors[..|errors| - 1]) + [errors[|errors| - 1].slug]
  }

  /** Every submitted slug is in exactly one of the two lists, as often as it was submitted. */
  lemma {:induction false} EverySlugLandsOnce(index: map<string, string>, units: seq<Unit>)
    ensures multiset(ReviewedOf(units)) + multiset(ErrorSlugs(ErrorsOf(index, units))) == multiset(SlugsOf(units))
  {
    if units != [] {
      var front, u := units[..|units| - 1], units[|units| - 1];
      EverySlugLandsOnce(index, front);
      var r, e := ReviewedOf(front), ErrorsOf(index, front);
      if u.outcome.Failed? {
        assert ErrorsOf(index, units) == e + [FleetError(u.slug, ClusterOf(index, u.slug), u.outcome.message)];
        assert ReviewedOf(units) == r;
      } else {
        assert ErrorsOf(index, units) == e;
        assert ReviewedOf(units) == r + [u.slug];
      }
      assert SlugsOf(units) == SlugsOf(front) + [u.slug];
      hide ReviewedOf, ErrorsOf, SlugsOf, ClusterOf;
      AddToOne(r, ErrorSlugs(e), SlugsOf(front), u.slug);
      if u.outcome.Failed? {
        ErrorSlugsAppend(e, FleetError(u.slug, ClusterOf(index, u.slug), u.outcome.message));
      }
    }
  }

  lemma AddToOne(r: seq<string>, e: seq<string>, all: seq<string>, s: string)
    requires multiset(r) + multiset(e) == multiset(all)
    ensures multiset(r + [s]) + multiset(e) == multiset(all + [s]) == multiset(r) + multiset(e + [s])
  {
  }

  lemma ErrorSlugsAppend(errors: seq<FleetError>, e: FleetError)
    ensures ErrorSlugs(errors + [e]) == ErrorSlugs(errors) + [e.slug]
  {
    assert (errors + [e])[..|errors|] == errors;
  }

  // ----- The order of completion -----

  lemma FindingLeOrder()
    ensures TotalPreorder(FindingLe)
  {
    hide StringLe, SeverityIndex;
    forall a, b
      ensures FindingLe(a, b) || FindingLe(b, a)
    {
      StringLeTotal(a.finding.slug, b.finding.slug);
    }
    forall a, b, c | FindingLe(a, b) && FindingLe(b, c)
      ensures FindingLe(a, c)
    {
      var x, y, z := a.finding.slug, b.finding.slug, c.finding.slug;
      StringLeTransitive(x, y, z);
      if StringLe(z, x) {
        StringLeTransitive(y, z, x);
        StringLeTransitive(z, x, y);
      }
    }
  }

  lemma {:induction false} CollectedMembers(index: map<string, string>, units: seq<Unit>, f: Tagged)
    ensures f in Collected(index, units) <==> exists u :: u in units && f in TaggedOf(index, u)
  {
    hide TaggedOf;
    if units != [] {
      var front, u := units[..|units| - 1], units[|units| - 1];
      assert units == front + [u];
      CollectedMembers(index, front, f);
    }
  }

  lemma FindingMembers(index: map<string, string>, units: seq<Unit>, f: Tagged)
    ensures f in FleetFindings(index, units) <==> exists u :: u in units && f in TaggedOf(index, u)
  {
    FindingLeOrder();
    SortIsSorted(FindingLe, Collected(index, units));
    assert f in FleetFindings(index, units) <==> f in multiset(FleetFindings(index, units));
    assert f in Collected(index, units) <==> f in multiset(Collected(index, units));
    CollectedMembers(index, units, f);
  }

  /** What each unit contributes: a failed one an error, a reviewed one its slug and its findings, all of them tagged with
      the cluster of the unit's slug; and what a list of units contributes is what its parts contribute, in order. */
  lemma UnitContributes(index: map<string, string>, a: seq<Unit>, b: seq<Unit>, u: Unit)
    ensures Collected(index, a + b) == Collected(index, a) + Collected(index, b)
    ensures ErrorsOf(index, a + b) == ErrorsOf(index, a) + ErrorsOf(index, b)
    ensures ReviewedOf(a + b) == ReviewedOf(a) + ReviewedOf(b)
    ensures Contribution(index, u, Collected(index, [u]), ErrorsOf(index, [u]), ReviewedOf([u]))
  {
    hide Collected, ErrorsOf, ReviewedOf, Contribution;
    CollectedOfConcat(index, a, b);
    ErrorsOfConcat(index, a, b);
    ReviewedOfConcat(a, b);
    OneContributes(index, u);
  }

  lemma {:induction false} ErrorsOfConcat(index: map<string, string>, a: seq<Unit>, b: seq<Unit>)
    ensures ErrorsOf(index, a + b) == ErrorsOf(index, a) + ErrorsOf(index, b)
  {
    hide ClusterOf;
    if b == [] {
      assert a + b == a;
    } else {
      var front, u := b[..|b| - 1], b[|b| - 1];
      ErrorsOfConcat(index, a, front);
      assert (a + b)[..|a + b| - 1] == a + front;
      Associate(ErrorsOf(index, a), ErrorsOf(index, front),
                if u.outcome.Failed? then [FleetError(u.slug, ClusterOf(index, u.slug), u.outcome.message)] else []);
    }
  }

  lemma {:induction false} ReviewedOfConcat(a: seq<Unit>, b: seq<Unit>)
    ensures ReviewedOf(a + b) == ReviewedOf(a) + ReviewedOf(b)
  {
    if b == [] {
      assert a + b == a;
    } else {
      var front, u := b[..|b| - 1], b[|b| - 1];
      ReviewedOfConcat(a, front);
      assert (a + b)[..|a + b| - 1] == a + front;
      Associate(ReviewedOf(a), ReviewedOf(front), if u.outcome.Reviewed? then [u.slug] else []);
    }
  }

  ghost predicate Contribution(index: map<string, string>, u: Unit, fs: seq<Tagged>, es: seq<FleetError>, rs: seq<string>) {
    var cluster := if u.slug in index then Some(index[u.slug]) else None;
    match u.outcome
    case Failed(message) => fs == [] && es == [FleetError(u.slug, cluster, message)] && rs == []
    case Reviewed(found) =>
      && |fs| == |found| && (forall i :: 0 <= i < |found| ==> fs[i] == Tagged(found[i], cluster))
      && es == [] && rs == [u.slug]
  }

  lemma OneContributes(index: map<string, string>, u: Unit)
    ensures Contribution(index, u, Collected(index, [u]), ErrorsOf(index, [u]), ReviewedOf([u]))
  {
    hide Collected, ErrorsOf, ReviewedOf;
    OneUnit(index, u);
    OutcomeContributes(index, u);
  }

  lemma OutcomeContributes(index: map<string, string>, u: Unit)
    ensures u.outcome.Failed? ==> Contribution(index, u, [], [FleetError(u.slug, ClusterOf(index, u.slug), u.outcome.message)], [])
    ensures u.outcome.Reviewed? ==> Contribution(index, u, TaggedOf(index, u), [], [u.slug])
  {
    if u.outcome.Reviewed? {
      assert ClusterOf(index, u.slug) == if u.slug in index then Some(index[u.slug]) else None;
    }
  }

  lemma OneUnit(index: map<string, string>, u: Unit)
    ensures Collected(index, [u]) == if u.outcome.Failed? then [] else TaggedOf(index, u)
    ensures ErrorsOf(index, [u]) ==
            if u.outcome.Failed? then [FleetError(u.slug, ClusterOf(index, u.slug), u.outcome.message)] else []
    ensures ReviewedOf([u]) == if u.outcome.Reviewed? then [u.slug] else []
  {
    hide ClusterOf;
    assert [u][..0] == [] && [] + TaggedOf(index, u) == TaggedOf(index, u);
  }

  /** HIGH before MEDIUM before LOW before anything else */
  ghost predicate Graver(s: string, t: string) {
    || (s == "HIGH" && t != "HIGH")
    || (s == "MEDIUM" && t != "HIGH" && t != "MEDIUM")
    || (s == "LOW" && t != "HIGH" && t != "MEDIUM" && t != "LOW")
  }

  /** `x` may come before `y`: by slug, then by severity. */
  ghost predicate InReportOrder(x: Finding, y: Finding) {
    || (x.slug != y.slug && StringLe(x.slug, y.slug))
    || (x.slug == y.slug && !Graver(y.severity, x.severity))
  }

  lemma FindingLeReads(x: Tagged, y: Tagged)
    ensures FindingLe(x, y) <==> InReportOrder(x.finding, y.finding)
  {
    StringLeTotal(x.finding.slug, y.finding.slug);
    if StringLe(x.finding.slug, y.finding.slug) && StringLe(y.finding.slug, x.finding.slug) {
      StringLeAntisymmetric(x.finding.slug, y.finding.slug);
    }
  }

  /** The findings list holds what the units reported, in the order of slug and severity; findings that agree in both stay
      in the order in which they were collected. */
  lemma FindingsAre(index: map<string, string>, units: seq<Unit>)
    ensures multiset(FleetFindings(index, units)) == multiset(Collected(index, units))
    ensures forall x, y | Before(FleetFindings(index, units), x, y) ::
              && InReportOrder(x.finding, y.finding)
              && (InReportOrder(y.finding, x.finding) ==> Before(Collected(index, units), x, y))
  {
    FindingLeOrder();
    SortIsSorted(FindingLe, Collected(index, units));
    hide FindingLe, InReportOrder, Collected, TotalPreorder, Sort;
    forall x, y | Before(FleetFindings(index, units), x, y)
      ensures InReportOrder(x.finding, y.finding)
      ensures InReportOrder(y.finding, x.finding) ==> Before(Collected(index, units), x, y)
    {
      FindingLeReads(x, y);
      FindingLeReads(y, x);
      if FindingLe(x, y) && FindingLe(y, x) {
        SortKeepsTies(FindingLe, Collected(index, units), x, y);
      }
    }
  }

  /** The findings of one unit that have the sort key of `k`, in the unit's order */
  function Share(index: map<string, string>, u: Unit, k: Tagged): seq<Tagged> {
    Class(FindingLe, k, TaggedOf(index, u))
  }

  /** Whichever of the two units completes first, findings with equal keys come out in the same order. */
  ghost predicate Commute(index: map<string, string>, u: Unit, v: Unit) {
    forall k :: Share(index, u, k) + Share(index, v, k) == Share(index, v, k) + Share(index, u, k)
  }

  ghost predicate AllCommute(index: map<string, string>, units: seq<Unit>) {
    forall u, v :: u in units && v in units ==> Commute(index, u, v)
  }

  function Shares(index: map<string, string>, units: seq<Unit>, k: Tagged): seq<Tagged> {
    Class(FindingLe, k, Collected(index, units))
  }

  lemma {:induction false} CollectedOfConcat(index: map<string, string>, a: seq<Unit>, b: seq<Unit>)
    ensures Collected(index, a + b) == Collected(index, a) + Collected(index, b)
  {
    hide TaggedOf;
    if b == [] {
      assert a + b == a;
    } else {
      var front := b[..|b| - 1];
      CollectedOfConcat(index, a, front);
      assert (a + b)[..|a + b| - 1] == a + front;
    }
  }

  lemma SharesOfConcat(index: map<string, string>, a: seq<Unit>, b: seq<Unit>, k: Tagged)
    ensures Shares(index, a + b, k) == Shares(index, a, k) + Shares(index, b, k)
  {
    CollectedOfConcat(index, a, b);
    ClassOfConcat(FindingLe, k, Collected(index, a), Collected(index, b));
  }

  lemma SharesOfOne(index: map<string, string>, u: Unit, k: Tagged)
    ensures Shares(index, [u], k) == Share(index, u, k)
  {
    hide TaggedOf, FindingLe;
    assert [u][..0] == [] && Collected(index, []) == [];
    assert Collected(index, [u]) == [] + TaggedOf(index, u) == TaggedOf(index, u);
  }

  /** A unit that commutes with others can be moved in front of them. */
  lemma {:induction false} MoveToFront(index: map<string, string>, u: Unit, before: seq<Unit>, k: Tagged)
    requires forall v :: v in before ==> Commute(index, u, v)
    ensures Shares(index, before, k) + Share(index, u, k) == Share(index, u, k) + Shares(index, before, k)
  {
    hide Share, Shares;
    if before == [] {
      NoShares(index, k);
    } else {
      var v, rest := before[0], before[1..];
      assert before == [v] + rest;
      MoveToFront(index, u, rest, k);
      SharesOfConcat(index, [v], rest, k);
      SharesOfOne(index, v, k);
      assert Commute(index, u, v);
      var x, y, z := Share(index, u, k), Share(index, v, k), Shares(index, rest, k);
      assert (y + z) + x == y + (z + x) == y + (x + z) == (y + x) + z == (x + y) + z == x + (y + z);
    }
  }

  lemma NoShares(index: map<string, string>, k: Tagged)
    ensures Shares(index, [], k) == []
  {
  }

  lemma SharesAround(index: map<string, string>, before: seq<Unit>, u: Unit, after: seq<Unit>, k: Tagged)
    ensures Shares(index, before + [u] + after, k) == Shares(index, before, k) + Share(index, u, k) + Shares(index, after, k)
  {
    hide Share, Shares;
    SharesOfConcat(index, before + [u], after, k);
    SharesOfConcat(index, before, [u], k);
    SharesOfOne(index, u, k);
  }

  lemma {:induction false} SharesAnyOrder(index: map<string, string>, a: seq<Unit>, b: seq<Unit>, k: Tagged)
    requires multiset(a) == multiset(b) && AllCommute(index, a)
    ensures Shares(index, a, k) == Shares(index, b, k)
    decreases |a|
  {
    hide Share, Shares, Commute, AllCommute;
    if a == [] {
      assert |b| == |multiset(b)| == 0;
    } else {
      var j := FindFirst(a, b);
      CommuteInRest(index, a, b, j);
      SharesAnyOrder(index, a[1..], b[..j] + b[j + 1..], k);
      SharesMoved(index, a[0], a[1..], b[..j], b[j + 1..], k);
      assert a == [a[0]] + a[1..] && b == b[..j] + [a[0]] + b[j + 1..];
    }
  }

  lemma SharesMoved(index: map<string, string>, u: Unit, rest: seq<Unit>, before: seq<Unit>, after: seq<Unit>, k: Tagged)
    requires Shares(index, rest, k) == Shares(index, before + after, k)
    requires forall v :: v in before ==> Commute(index, u, v)
    ensures Shares(index, [u] + rest, k) == Shares(index, before + [u] + after, k)
  {
    hide Share, Shares, Commute;
    MoveToFront(index, u, before, k);
    SharesOfConcat(index, [u], rest, k);
    SharesOfOne(index, u, k);
    SharesAround(index, before, u, after, k);
    SharesOfConcat(index, before, after, k);
    var x, y, z := Share(index, u, k), Shares(index, before, k), Shares(index, after, k);
    assert x + (y + z) == (x + y) + z == (y + x) + z;
  }

  lemma CommuteInRest(index: map<string, string>, a: seq<Unit>, b: seq<Unit>, j: nat)
    requires a != [] && multiset(a) == multiset(b) && AllCommute(index, a) && j < |b|
    ensures AllCommute(index, a[1..])
    ensures forall v :: v in b[..j] ==> Commute(index, a[0], v)
  {
    hide Commute;
    forall v | v in b[..j]
      ensures Commute(index, a[0], v)
    {
      assert v in b && v in multiset(b) && v in multiset(a);
    }
  }

  /** The findings list is the same for every completion order. */
  ghost predicate OrderIndependent(index: map<string, string>, units: seq<Unit>) {
    forall order :: multiset(order) == multiset(units) ==> FleetFindings(index, order) == FleetFindings(index, units)
  }

  lemma CommutingIsOrderIndependent(index: map<string, string>, units: seq<Unit>, order: seq<Unit>)
    requires AllCommute(index, units) && multiset(order) == multiset(units)
    ensures FleetFindings(index, order) == FleetFindings(index, units)
  {
    FindingLeOrder();
    hide TotalPreorder, FindingLe, AllCommute, Collected, Class;
    var a, b := Collected(index, order), Collected(index, units);
    forall k
      ensures Class(FindingLe, k, a) == Class(FindingLe, k, b)
    {
      SharesAnyOrder(index, units, order, k);
    }
    SortByClasses(FindingLe, a, b);
  }

  lemma TwoOrders(index: map<string, string>, units: seq<Unit>, a: seq<Unit>, b: seq<Unit>)
    requires OrderIndependent(index, units) && multiset(a) == multiset(units) == multiset(b)
    ensures FleetFindings(index, a) == FleetFindings(index, b)
  {
    hide FleetFindings;
  }

  lemma OrderIndependentCommutes(index: map<string, string>, units: seq<Unit>, u: Unit, v: Unit)
    requires OrderIndependent(index, units) && u in units && v in units
    ensures Commute(index, u, v)
  {
    if u == v {
      SelfCommute(index, u);
    } else {
      FindingLeOrder();
      hide TotalPreorder, FindingLe, FleetFindings, Commute, OrderIndependent;
      var rest := RestAfterTwo(units, u, v);
      TwoOrders(index, units, [u, v] + rest, [v, u] + rest);
      SwapFirstTwo(index, u, v, rest);
    }
  }

  /** The findings list is the same for every completion order exactly if the units commute pairwise on every key. */
  lemma FleetOrderIndependentIff(index: map<string, string>, units: seq<Unit>)
    ensures OrderIndependent(index, units) <==> AllCommute(index, units)
  {
    hide FleetFindings, Commute;
    if AllCommute(index, units) {
      forall order | multiset(order) == multiset(units)
        ensures FleetFindings(index, order) == FleetFindings(index, units)
      {
        CommutingIsOrderIndependent(index, units, order);
      }
    }
    if OrderIndependent(index, units) {
      forall u, v | u in units && v in units
        ensures Commute(index, u, v)
      {
        OrderIndependentCommutes(index, units, u, v);
      }
    }
  }

  lemma SelfCommute(index: map<string, string>, u: Unit)
    ensures Commute(index, u, u)
  {
  }

  lemma RestAfterTwo(units: seq<Unit>, u: Unit, v: Unit) returns (rest: seq<Unit>)
    requires u in units && v in units && u != v
    ensures multiset([u, v] + rest) == multiset(units) == multiset([v, u] + rest)
  {
    var i :| 0 <= i < |units| && units[i] == u;
    var without := units[..i] + units[i + 1..];
    TakeOut(units, i);
    assert v in multiset(units);
    assert v in multiset(without);
    var j :| 0 <= j < |without| && without[j] == v;
    rest := without[..j] + without[j + 1..];
    TakeOut(without, j);
    AddTwoBack(units, without, rest, u, v);
  }

  lemma AddTwoBack(units: seq<Unit>, without: seq<Unit>, rest: seq<Unit>, u: Unit, v: Unit)
    requires multiset(units) == multiset(without) + multiset{u}
    requires multiset(without) == multiset(rest) + multiset{v}
    ensures multiset([u, v] + rest) == multiset(units) == multiset([v, u] + rest)
  {
  }

  lemma SwapFirstTwo(index: map<string, string>, u: Unit, v: Unit, rest: seq<Unit>)
    requires TotalPreorder(FindingLe)
    requires FleetFindings(index, [u, v] + rest) == FleetFindings(index, [v, u] + rest)
    ensures Commute(index, u, v)
  {
    hide FindingLe, TotalPreorder;
    forall k
      ensures Share(index, u, k) + Share(index, v, k) == Share(index, v, k) + Share(index, u, k)
    {
      SortShowsClasses(FindingLe, Collected(index, [u, v] + rest), Collected(index, [v, u] + rest), k);
      hide Share, Shares;
      FirstTwoShares(index, u, v, rest, k);
      FirstTwoShares(index, v, u, rest, k);
      var x, y, z := Share(index, u, k), Share(index, v, k), Shares(index, rest, k);
      assert (x + y + z)[..|x + y|] == x + y && (y + x + z)[..|x + y|] == y + x;
    }
  }

  lemma FirstTwoShares(index: map<string, string>, u: Unit, v: Unit, rest: seq<Unit>, k: Tagged)
    ensures Shares(index, [u, v] + rest, k) == Share(index, u, k) + Share(index, v, k) + Shares(index, rest, k)
  {
    hide Share, Shares;
    SharesOfConcat(index, [u, v], rest, k);
    assert [u, v] == [u] + [v];
    SharesOfConcat(index, [u], [v], k);
    SharesOfOne(index, u, k);
    SharesOfOne(index, v, k);
  }

  // ----- When reviewers report under their own slug -----

  ghost predicate OwnSlug(u: Unit) {
    u.outcome.Reviewed? ==> forall f :: f in u.outcome.findings ==> f.slug == u.slug
  }

  ghost predicate DistinctSlugs(units: seq<Unit>) {
    forall i, j :: 0 <= i < j < |units| ==> units[i].slug != units[j].slug
  }

  lemma ShareHasOwnSlug(index: map<string, string>, u: Unit, k: Tagged)
    requires OwnSlug(u) && Share(index, u, k) != []
    ensures k.finding.slug == u.slug
  {
    hide StringLe, SeverityIndex;
    var t := Share(index, u, k)[0];
    ClassMembers(FindingLe, k, TaggedOf(index, u), t);
    StringLeAntisymmetric(k.finding.slug, t.finding.slug);
  }

  /** If every unit reports only under its own slug and slugs are distinct, the findings list is the same for every
      completion order. */
  lemma OwnSlugsMakeOrderIrrelevant(index: map<string, string>, units: seq<Unit>, order: seq<Unit>)
    requires DistinctSlugs(units) && forall u :: u in units ==> OwnSlug(u)
    requires multiset(order) == multiset(units)
    ensures FleetFindings(index, order) == FleetFindings(index, units)
  {
    hide FleetFindings, OwnSlug, Share;
    forall u, v | u in units && v in units
      ensures Commute(index, u, v)
    {
      forall k
        ensures Share(index, u, k) + Share(index, v, k) == Share(index, v, k) + Share(index, u, k)
      {
        if u != v && Share(index, u, k) != [] && Share(index, v, k) != [] {
          ShareHasOwnSlug(index, u, k);
          ShareHasOwnSlug(index, v, k);
        }
      }
    }
    FleetOrderIndependentIff(index, units);
  }

  /** Nothing checks the slug a reviewer writes into a finding: two units that report different findings under one slug
      and severity come out in completion order, so the list is not fixed by the reviewers' responses. */
  lemma OrderShowsInSharedSlugs(index: map<string, string>, a: string, b: string, f: Finding, g: Finding)
    requires f != g && f.slug == g.slug && f.severity == g.severity
    ensures var u, v := Unit(a, Reviewed([f])), Unit(b, Reviewed([g]));
            FleetFindings(index, [u, v]) != FleetFindings(index, [v, u])
  {
    var u, v := Unit(a, Reviewed([f])), Unit(b, Reviewed([g]));
    var x, y := Tagged(f, ClusterOf(index, a)), Tagged(g, ClusterOf(index, b));
    assert TaggedOf(index, u) == [x] && TaggedOf(index, v) == [y];
    SameKeyDoesNotCommute(index, u, v, x, y);
    if FleetFindings(index, [u, v]) == FleetFindings(index, [v, u]) {
      FindingLeOrder();
      assert [u, v] + [] == [u, v] && [v, u] + [] == [v, u];
      SwapFirstTwo(index, u, v, []);
    }
  }

  lemma SameKeyDoesNotCommute(index: map<string, string>, u: Unit, v: Unit, x: Tagged, y: Tagged)
    requires TaggedOf(index, u) == [x] && TaggedOf(index, v) == [y] && x != y
    requires x.finding.slug == y.finding.slug && x.finding.severity == y.finding.severity
    ensures !Commute(index, u, v)
  {
    hide SeverityIndex, TaggedOf;
    StringLeTotal(x.finding.slug, x.finding.slug);
    ClassOfOne(FindingLe, x, x);
    ClassOfOne(FindingLe, x, y);
    assert Share(index, u, x) == [x] && Share(index, v, x) == [y];
    assert ([x] + [y])[0] == x && ([y] + [x])[0] == y;
  }
}
