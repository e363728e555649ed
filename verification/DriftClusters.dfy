/** The cluster table of the drift review, and that it partitions its slugs. */
module DriftClusters {
  import opened Basics
  import opened DriftArtifact
  import opened DriftFleet

  const ORCHESTRATION := [
    "orchestration-loop", "agent-dispatch", "batch-planning", "result-collection",
    "worktree-isolation", "plan-json-contract", "task-model-fsm", "swarm-memory"]

  const PRD_DECISION := ["prd-generation", "prd-wizard", "decision-gate", "task-generation", "decomposition"]

  const INTEGRATIONS := [
    "github-integration", "gitlab-integration", "jira-integration",
    "jira-watcher-daemon", "mcp-integration"]

  const OPERATOR_SURFACE := ["cli-surface", "dashboard-tui", "web-status-ui", "operator-views-logs", "reporting"]

  const PLATFORM := ["state-persistence", "configuration", "scheduling", "self-update-doctor", "auth-security"]

  const SAFETY_QUALITY := [
    "verification-gates", "budget-resource-guards", "quality-compliance-audit",
    "recovery-self-healing", "notifications"]

  /** `CLUSTERS` */
  const CLUSTERS: Table := [
    ("orchestration", ORCHESTRATION),
    ("prd-decision", PRD_DECISION),
    ("integrations", INTEGRATIONS),
    ("operator-surface", OPERATOR_SURFACE),
    ("platform", PLATFORM),
    ("safety-quality", SAFETY_QUALITY)]

  // To find two string literals different the verifier has to be told where they differ, and the table has over five
  // hundred pairs of slugs.  So every literal is looked at once: its length and two of its characters make a number, and
  // the numbers of all slugs are different.

  /** A number that tells the names in the table apart */
  function Code(s: string): int {
    if |s| < 5 then 0 else |s| + 2 * (s[0] as int) + 4 * (s[4] as int)
  }

  function Codes(names: seq<string>): seq<int> {
    seq(|names|, i requires 0 <= i < |names| => Code(names[i]))
  }

  lemma DifferentCodes(a: seq<string>)
    requires NoRepetition(Codes(a))
    ensures NoRepetition(a)
  {
    hide Code;
    forall i, j | 0 <= i < j < |a|
      ensures a[i] != a[j]
    {
      assert Codes(a)[i] != Codes(a)[j];
    }
  }

  lemma CodeIn(a: seq<string>, s: string)
    requires s in a
    ensures Code(s) in Codes(a)
  {
    hide Code;
    var i :| 0 <= i < |a| && a[i] == s;
    assert Codes(a)[i] == Code(s);
  }

  lemma DifferentRows(a: seq<string>, b: seq<string>)
    requires forall x :: x in Codes(a) ==> x !in Codes(b)
    ensures NoneShared(a, b)
  {
    hide Code, Codes;
    forall s | s in a
      ensures s !in b
    {
      CodeIn(a, s);
      if s in b {
        CodeIn(b, s);
      }
    }
  }

  lemma OrchestrationCodes()
    ensures Codes(ORCHESTRATION) == [644, 672, 626, 677, 720, 422, 426, 678]
  {
    var a := ORCHESTRATION;
    assert |a[0]| == 18 && a[0][0] == 'o' && a[0][4] == 'e';
    assert |a[1]| == 14 && a[1][0] == 'a' && a[1][4] == 't';
    assert |a[2]| == 14 && a[2][0] == 'b' && a[2][4] == 'h';
    assert |a[3]| == 17 && a[3][0] == 'r' && a[3][4] == 'l';
    assert |a[4]| == 18 && a[4][0] == 'w' && a[4][4] == 't';
    assert |a[5]| == 18 && a[5][0] == 'p' && a[5][4] == '-';
    assert |a[6]| == 14 && a[6][0] == 't' && a[6][4] == '-';
    assert |a[7]| == 12 && a[7][0] == 's' && a[7][4] == 'm';
  }

  lemma PrdDecisionCodes()
    ensures Codes(PRD_DECISION) == [650, 710, 673, 427, 649]
  {
    var a := PRD_DECISION;
    assert |a[0]| == 14 && a[0][0] == 'p' && a[0][4] == 'g';
    assert |a[1]| == 10 && a[1][0] == 'p' && a[1][4] == 'w';
    assert |a[2]| == 13 && a[2][0] == 'd' && a[2][4] == 's';
    assert |a[3]| == 15 && a[3][0] == 't' && a[3][4] == '-';
    assert |a[4]| == 13 && a[4][0] == 'd' && a[4][4] == 'm';
  }

  lemma IntegrationsCodes()
    ensures Codes(INTEGRATIONS) == [692, 612, 408, 411, 653]
  {
    var a := INTEGRATIONS;
    assert |a[0]| == 18 && a[0][0] == 'g' && a[0][4] == 'u';
    assert |a[1]| == 18 && a[1][0] == 'g' && a[1][4] == 'a';
    assert |a[2]| == 16 && a[2][0] == 'j' && a[2][4] == '-';
    assert |a[3]| == 19 && a[3][0] == 'j' && a[3][4] == '-';
    assert |a[4]| == 15 && a[4][0] == 'm' && a[4][4] == 'i';
  }

  lemma OperatorSurfaceCodes()
    ensures Codes(OPERATOR_SURFACE) == [669, 605, 711, 629, 693]
  {
    var a := OPERATOR_SURFACE;
    assert |a[0]| == 11 && a[0][0] == 'c' && a[0][4] == 's';
    assert |a[1]| == 13 && a[1][0] == 'd' && a[1][4] == 'b';
    assert |a[2]| == 13 && a[2][0] == 'w' && a[2][4] == 's';
    assert |a[3]| == 19 && a[3][0] == 'o' && a[3][4] == 'a';
    assert |a[4]| == 9 && a[4][0] == 'r' && a[4][4] == 'r';
  }

  lemma PlatformCodes()
    ensures Codes(PLATFORM) == [651, 631, 640, 428, 387]
  {
    var a := PLATFORM;
    assert |a[0]| == 17 && a[0][0] == 's' && a[0][4] == 'e';
    assert |a[1]| == 13 && a[1][0] == 'c' && a[1][4] == 'i';
    assert |a[2]| == 10 && a[2][0] == 's' && a[2][4] == 'd';
    assert |a[3]| == 18 && a[3][0] == 's' && a[3][4] == '-';
    assert |a[4]| == 13 && a[4][0] == 'a' && a[4][4] == '-';
  }

  lemma SafetyQualityCodes()
    ensures Codes(SAFETY_QUALITY) == [662, 622, 670, 721, 641]
  {
    var a := SAFETY_QUALITY;
    assert |a[0]| == 18 && a[0][0] == 'v' && a[0][4] == 'f';
    assert |a[1]| == 22 && a[1][0] == 'b' && a[1][4] == 'e';
    assert |a[2]| == 24 && a[2][0] == 'q' && a[2][4] == 'i';
    assert |a[3]| == 21 && a[3][0] == 'r' && a[3][4] == 'v';
    assert |a[4]| == 13 && a[4][0] == 'n' && a[4][4] == 'f';
  }

  const NAMES := ["orchestration", "prd-decision", "integrations", "operator-surface", "platform", "safety-quality"]

  lemma NameCodes()
    ensures Codes(NAMES) == [639, 636, 634, 626, 640, 708]
  {
    var a := NAMES;
    assert |a[0]| == 13 && a[0][0] == 'o' && a[0][4] == 'e';
    assert |a[1]| == 12 && a[1][0] == 'p' && a[1][4] == 'd';
    assert |a[2]| == 12 && a[2][0] == 'i' && a[2][4] == 'g';
    assert |a[3]| == 16 && a[3][0] == 'o' && a[3][4] == 'a';
    assert |a[4]| == 8 && a[4][0] == 'p' && a[4][4] == 'f';
    assert |a[5]| == 14 && a[5][0] == 's' && a[5][4] == 't';
  }

  /** All names, and the slugs of every row, are different. */
  lemma DistinctInRows()
    ensures NoRepetition(NAMES)
    ensures NoRepetition(ORCHESTRATION)
    ensures NoRepetition(PRD_DECISION)
    ensures NoRepetition(INTEGRATIONS)
    ensures NoRepetition(OPERATOR_SURFACE)
    ensures NoRepetition(PLATFORM)
    ensures NoRepetition(SAFETY_QUALITY)
  {
    hide Codes, NAMES, ORCHESTRATION, PRD_DECISION, INTEGRATIONS, OPERATOR_SURFACE, PLATFORM, SAFETY_QUALITY;
    NameCodes();
    DifferentCodes(NAMES);
    OrchestrationCodes();
    DifferentCodes(ORCHESTRATION);
    PrdDecisionCodes();
    DifferentCodes(PRD_DECISION);
    IntegrationsCodes();
    DifferentCodes(INTEGRATIONS);
    OperatorSurfaceCodes();
    DifferentCodes(OPERATOR_SURFACE);
    PlatformCodes();
    DifferentCodes(PLATFORM);
    SafetyQualityCodes();
    DifferentCodes(SAFETY_QUALITY);
  }

  /** No two rows share a slug. */
  lemma RowsApart()
    ensures NoneShared(ORCHESTRATION, PRD_DECISION)
    ensures NoneShared(ORCHESTRATION, INTEGRATIONS)
    ensures NoneShared(ORCHESTRATION, OPERATOR_SURFACE)
    ensures NoneShared(ORCHESTRATION, PLATFORM)
    ensures NoneShared(ORCHESTRATION, SAFETY_QUALITY)
    ensures NoneShared(PRD_DECISION, INTEGRATIONS)
    ensures NoneShared(PRD_DECISION, OPERATOR_SURFACE)
    ensures NoneShared(PRD_DECISION, PLATFORM)
    ensures NoneShared(PRD_DECISION, SAFETY_QUALITY)
    ensures NoneShared(INTEGRATIONS, OPERATOR_SURFACE)
    ensures NoneShared(INTEGRATIONS, PLATFORM)
    ensures NoneShared(INTEGRATIONS, SAFETY_QUALITY)
    ensures NoneShared(OPERATOR_SURFACE, PLATFORM)
    ensures NoneShared(OPERATOR_SURFACE, SAFETY_QUALITY)
    ensures NoneShared(PLATFORM, SAFETY_QUALITY)
  {
    hide Codes, NoneShared, ORCHESTRATION, PRD_DECISION, INTEGRATIONS, OPERATOR_SURFACE, PLATFORM, SAFETY_QUALITY;
    OrchestrationCodes();
    PrdDecisionCodes();
    IntegrationsCodes();
    OperatorSurfaceCodes();
    PlatformCodes();
    SafetyQualityCodes();
    DifferentRows(ORCHESTRATION, PRD_DECISION);
    DifferentRows(ORCHESTRATION, INTEGRATIONS);
    DifferentRows(ORCHESTRATION, OPERATOR_SURFACE);
    DifferentRows(ORCHESTRATION, PLATFORM);
    DifferentRows(ORCHESTRATION, SAFETY_QUALITY);
    DifferentRows(PRD_DECISION, INTEGRATIONS);
    DifferentRows(PRD_DECISION, OPERATOR_SURFACE);
    DifferentRows(PRD_DECISION, PLATFORM);
    DifferentRows(PRD_DECISION, SAFETY_QUALITY);
    DifferentRows(INTEGRATIONS, OPERATOR_SURFACE);
    DifferentRows(INTEGRATIONS, PLATFORM);
    DifferentRows(INTEGRATIONS, SAFETY_QUALITY);
    DifferentRows(OPERATOR_SURFACE, PLATFORM);
    DifferentRows(OPERATOR_SURFACE, SAFETY_QUALITY);
    DifferentRows(PLATFORM, SAFETY_QUALITY);
  }

  /** The table partitions its 33 slugs. */
  lemma ClustersPartition()
    ensures Partition(CLUSTERS) && |CLUSTERS| == 6
  {
    DistinctInRows();
    RowsApart();
    assert forall i :: 0 <= i < 6 ==> CLUSTERS[i].0 == NAMES[i];
    hide NoneShared, NAMES, ORCHESTRATION, PRD_DECISION, INTEGRATIONS, OPERATOR_SURFACE, PLATFORM, SAFETY_QUALITY;
    assert forall i, j :: 0 <= i < j < 6 ==> NAMES[i] != NAMES[j];
    hide NoRepetition;
  }

  /** After a sweep over all slugs of the table, clean, errors and slugs with findings add up to the size of every
      cluster. */
  lemma ClustersSweep(units: seq<Unit>, i: nat)
    requires DistinctSlugs(units) && (forall u :: u in units ==> OwnSlug(u)) && i < 6
    requires (set u | u in units :: u.slug) == SlugIndex(CLUSTERS).Keys
    ensures var index, c := SlugIndex(CLUSTERS), CLUSTERS[i].0;
            var r := Fleet(CLUSTERS, units);
            var t := TallyOf(index, Names(CLUSTERS), r, c);
            var found := set s | s in SlugsWithFindings(index, Names(CLUSTERS), r.findings) && ClusterOf(index, s) == Some(c);
            t.clean + t.error + |found| == |CLUSTERS[i].1|
  {
    ClustersPartition();
    hide CLUSTERS, Partition, SlugIndex, TallyOf, Fleet, SlugsWithFindings, Names;
    FullSweepConservation(CLUSTERS, units, i);
  }
}
