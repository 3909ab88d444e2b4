/**
The one direction in which more evidence costs something: a directory whose run is READY, and
READY WITH GAPS once it gains a change log.
*/
module CertificationSample {
  import opened Text
  import opened Certification
  import opened CertificationRun
  import CertificationVerdict

  const FILES: set<string> := {
    "CONTRIBUTING.md", "LICENSE", ".gitignore", "SECURITY.md", "Dockerfile", "metrics",
    "data/config/targets.json", "vcpkg.json", "README.md", "src/pii_filter.cpp", "ONBOARDING.md",
    "BACKUP.md", "PRIVACY.md", "CMakeLists.txt"}

  function Sample(later: bool): Tree {
    Tree(if later then FILES + {"CHANGELOG.md"} else FILES, true, 0)
  }

  // A run with --no-tests over unsigned commits.
  const GATES: seq<Gate> := [
    Gate("commit_signing", "fail", "0/5 signed", false),
    Gate("unit_test_health", "skipped", "Skipped (--no-tests)", false),
    Gate("build_integrity", "pass", "cmake build OK", true),
    Gate("documentation_accuracy", "pass", "README present, 3 commands documented, no stale refs", false),
    Gate("security_critical", "pass", "No secrets exposed, dependencies managed", true)]

  function Gathered(later: bool): seq<Item> {
    Items(SECTIONS, Sample(later), GATES)
  }

  // The files the collector finds, and those it misses.
  lemma SampleFiles(later: bool)
    ensures var here := Sample(later).files;
            && "CONTRIBUTING.md" in here && "LICENSE" in here && ".gitignore" in here && "SECURITY.md" in here
            && "Dockerfile" in here && "metrics" in here && "data/config/targets.json" in here
            && "README.md" in here && "src/pii_filter.cpp" in here && "ONBOARDING.md" in here
            && "BACKUP.md" in here && "PRIVACY.md" in here
  {
  }

  lemma MissingFiles(later: bool)
    ensures ".github/workflows" !in Sample(later).files && ".gitlab-ci.yml" !in Sample(later).files
    ensures "CHANGELOG" !in Sample(later).files && ("CHANGELOG.md" in Sample(later).files <==> later)
  {
  }

  lemma GateNames()
    ensures GATES[0].name == "commit_signing" && GATES[1].name == "unit_test_health"
    ensures GATES[2].name == "build_integrity" && GATES[4].name == "security_critical" && |GATES| == 5
    ensures forall i, j :: 0 <= i < j < 5 ==> |GATES[i].name| != |GATES[j].name|
  {
  }

  // ---- What is reported ----

  // A file that is there is an item of the probe that looks for it.
  lemma Gather(later: bool, k: nat, i: nat, m: nat)
    requires k < SECTIONS && i < |ProbesOf(k)| && ProbesOf(k)[i].AnyFile?
    requires m < |ProbesOf(k)[i].paths| && ProbesOf(k)[i].paths[m] in Sample(later).files
    ensures DomainOf(k) in DomainsIn(Gathered(later))
    ensures forall s :: Says(ProbesOf(k)[i].summary, s) ==> Reports(Gathered(later), DomainOf(k), s)
  {
    hide ProbesOf, Items, Sample, Says;
    var p := ProbesOf(k)[i];
    var x := Item(DomainOf(k), "pass", p.executionBacked, p.summary);
    Collected(k, i, Sample(later), GATES, x);
    assert x in Gathered(later) && Passing(x);
  }

  // And a gate that passed one of the probe that quotes it.
  lemma GatherGate(later: bool, k: nat, g: nat, signal: string)
    requires k < SECTIONS && |ProbesOf(k)| > 0 && ProbesOf(k)[0].FromGates? && g < |GATES|
    requires GATES[g].name in ProbesOf(k)[0].prefixes && GATES[g].status == "pass"
    requires Says(ProbesOf(k)[0].prefixes[GATES[g].name] + GATES[g].detail, signal)
    ensures Reports(Gathered(later), DomainOf(k), signal)
  {
    hide ProbesOf, Items, Sample, Says;
    var prefixes := ProbesOf(k)[0].prefixes;
    var x := Item(DomainOf(k), "pass", true, prefixes[GATES[g].name] + GATES[g].detail);
    GateMembers(DomainOf(k), prefixes, GATES, x);
    Collected(k, 0, Sample(later), GATES, x);
    assert x in Gathered(later) && Passing(x);
  }

  lemma FilesReported(later: bool)
    ensures Reports(Gathered(later), 0, "contributing") && Reports(Gathered(later), 1, "LICENSE")
    ensures Reports(Gathered(later), 2, ".gitignore") && Reports(Gathered(later), 2, "SECURITY")
    ensures Reports(Gathered(later), 15, "README")
  {
    FilesSay();
    SampleFiles(later);
    hide Gathered, Sample, Says, Reports, FILES, GATES;
    Gather(later, 0, 0, 0);
    Gather(later, 1, 0, 0);
    Gather(later, 2, 0, 0);
    Gather(later, 2, 3, 0);
    Gather(later, 13, 0, 0);
  }

  lemma FilesSay()
    ensures Says("CONTRIBUTING.md present", "contributing") && Says("LICENSE file present", "LICENSE")
    ensures Says(".gitignore configured", ".gitignore") && Says("Security policy defined", "SECURITY")
    ensures Says("README present", "README")
  {
    hide Says, Lower;
    SaysAtStart("CONTRIBUTING.md present", "contributing");
    SaysAtStart("LICENSE file present", "LICENSE");
    SaysAtStart(".gitignore configured", ".gitignore");
    SaysAtStart("Security policy defined", "SECURITY");
    SaysAtStart("README present", "README");
  }

  lemma GatesReported(later: bool)
    ensures Reports(Gathered(later), 6, "security gate") && Reports(Gathered(later), 12, "build gate")
  {
    GatesSay();
    GateProbes();
    hide Gathered, Sample, Says, Reports, FILES, GATES, ProbesOf, DomainOf;
    GatherGate(later, 5, 4, "security gate");
    GatherGate(later, 10, 2, "build gate");
  }

  // The gates that passed are quoted.
  lemma GateProbes()
    ensures |GATES| == 5 && GATES[4].status == "pass" && GATES[2].status == "pass"
    ensures |ProbesOf(5)| == 1 && ProbesOf(5)[0].FromGates? && DomainOf(5) == 6
    ensures var prefixes := ProbesOf(5)[0].prefixes;
            GATES[4].name in prefixes && prefixes[GATES[4].name] == "Security gate: "
    ensures |ProbesOf(10)| == 2 && ProbesOf(10)[0].FromGates? && DomainOf(10) == 12
    ensures var prefixes := ProbesOf(10)[0].prefixes;
            GATES[2].name in prefixes && prefixes[GATES[2].name] == "Build gate: "
  {
  }

  lemma GatesSay()
    ensures Says("Security gate: " + GATES[4].detail, "security gate")
    ensures Says("Build gate: " + GATES[2].detail, "build gate")
  {
    GateNames();
    hide Says, Lower, GATES;
    SaysAtStart("Security gate: " + GATES[4].detail, "security gate");
    SaysAtStart("Build gate: " + GATES[2].detail, "build gate");
  }

  lemma SecretsReported(later: bool)
    ensures Reports(Gathered(later), 3, "secrets excluded")
  {
    var x := Item(3, "pass", false, "Secrets excluded via .gitignore");
    SaysAtStart(x.summary, "secrets excluded");
    SampleFiles(later);
    assert Sample(later).secretsIgnored;
    hide Items, Sample, Says, FILES, Lower, GATES;
    Collected(3, 0, Sample(later), GATES, x);
    assert x in Gathered(later) && Passing(x);
  }

  // Domains that ask for nothing but some evidence.
  lemma SomeEvidence(later: bool)
    ensures {4, 5, 8, 9} <= DomainsIn(Gathered(later))
  {
    SampleFiles(later);
    hide Gathered, Sample, FILES, GATES, DomainsIn, Reports, Says;
    Gather(later, 19, 0, 0);
    Gather(later, 4, 0, 0);
    Gather(later, 7, 0, 1);
    Gather(later, 8, 0, 0);
  }

  lemma MoreEvidence(later: bool)
    ensures {10, 11, 16, 17} <= DomainsIn(Gathered(later))
  {
    SampleFiles(later);
    hide Gathered, Sample, FILES, GATES, DomainsIn, Reports, Says;
    Gather(later, 18, 0, 0);
    Gather(later, 9, 0, 0);
    Gather(later, 14, 0, 0);
    Gather(later, 15, 1, 0);
  }

  // ---- What is not reported ----

  lemma SampleNotReviewed(later: bool)
    ensures !Reports(Gathered(later), 0, "code review")
  {
    hide Items, Reports;
    NoReviewReported(Sample(later), GATES);
  }

  lemma NoCiReported(later: bool)
    ensures !Reports(Gathered(later), 2, "CI")
  {
    CiNotSaid();
    MissingFiles(later);
    hide Says, Items, Sample, FILES, GATES;
    forall x | x in Gathered(later) && x.domain == 2 ensures !Says(x.summary, "CI") {
      var k, i := Origin(2, Sample(later), GATES, x);
      assert k == 2;
    }
  }

  lemma CiNotSaid()
    ensures !Says(".gitignore configured", "CI") && !Says("Security policy defined", "CI")
  {
    hide Says;
    NoPair(".gitignore configured", 'C', 'I');
    var s := "Security policy defined";
    forall k | 0 <= k < |s| - 1 && LowerChar(s[k]) == 'c' ensures LowerChar(s[k + 1]) != 'i' {
      assert k == 2 || k == 13;
    }
    NoPair(s, 'C', 'I');
  }

  // No place in either case where one letter follows the other.
  lemma NoPair(s: string, a: char, b: char)
    requires forall k :: 0 <= k < |s| - 1 ==> LowerChar(s[k]) != LowerChar(a) || LowerChar(s[k + 1]) != LowerChar(b)
    ensures !Says(s, [a, b])
  {
    PairFound(s, a, b);
    PairFound(Lower(s), LowerChar(a), LowerChar(b));
    assert Lower([a, b]) == [LowerChar(a), LowerChar(b)];
  }

  lemma PairFound(s: string, a: char, b: char)
    ensures Has(s, [a, b]) ==> exists k :: 0 <= k < |s| - 1 && s[k] == a && s[k + 1] == b
  {
    var r := Find(s, [a, b], 0);
    if r.Some? {
      assert s[r.value + 0] == [a, b][0] && s[r.value + 1] == [a, b][1];
    }
  }

  lemma NoTestReported(later: bool)
    ensures !Reports(Gathered(later), 12, "test gate")
  {
    TestNotSaid();
    hide Says, Items, Sample, FILES, GATES;
    forall x | x in Gathered(later) && x.domain == 12 && Passing(x) ensures !Says(x.summary, "test gate") {
      var k, i := Origin(12, Sample(later), GATES, x);
      QualityItem(later, k, i, x);
    }
  }

  lemma QualityItem(later: bool, k: nat, i: nat, x: Item)
    requires (k == 10 || k == 16) && i < |ProbesOf(k)| && Passing(x)
    requires x in Emit(12, ProbesOf(k)[i], Sample(later), GATES)
    ensures x.summary == "Build gate: " + GATES[2].detail || x.summary == "Recent Euxis verdict artifact present"
  {
    if k == 10 && i == 0 {
      QuotedGate(x);
    }
  }

  lemma QuotedGate(x: Item)
    requires x in FromGateList(12, ProbesOf(10)[0].prefixes, GATES) && Passing(x)
    ensures x.summary == "Build gate: " + GATES[2].detail
  {
    GateProbes();
    OtherGates();
    hide GATES, ProbesOf, FromGateList;
    GateMembers(12, ProbesOf(10)[0].prefixes, GATES, x);
  }

  lemma OtherGates()
    ensures var prefixes := ProbesOf(10)[0].prefixes;
            GATES[0].name !in prefixes && GATES[3].name !in prefixes && GATES[4].name !in prefixes
    ensures GATES[1].status != "pass" && GATES[1].status != "partial"
  {
    assert |GATES[1].status| == 7 && GATES[1].status[0] == 's';
    GateNames();
  }

  lemma TestNotSaid()
    ensures !Says("Build gate: " + GATES[2].detail, "test gate")
    ensures !Says("Recent Euxis verdict artifact present", "test gate")
  {
    hide Says;
    BuildGateText();
    SaysNot("Build gate: cmake build OK", "test gate", 2);
    SaysNot("Recent Euxis verdict artifact present", "test gate", 5);
  }

  lemma BuildGateText()
    ensures "Build gate: " + GATES[2].detail == "Build gate: cmake build OK"
  {
  }

  lemma ChangesReported(later: bool)
    ensures !Reports(Gathered(later), 13, "commit signing")
    ensures Reports(Gathered(later), 13, "CHANGELOG") <==> later
  {
    ChangelogSays();
    MissingFiles(later);
    hide Says, Items, Sample, FILES, GATES;
    if later {
      Gather(later, 11, 1, 0);
    }
    forall x | x in Gathered(later) && x.domain == 13 && Passing(x)
      ensures later && !Says(x.summary, "commit signing")
    {
      var k, i := Origin(13, Sample(later), GATES, x);
      assert k == 11;
      if i == 0 {
        SigningGate(x);
      }
    }
  }

  lemma ChangelogSays()
    ensures Says("CHANGELOG present", "CHANGELOG") && !Says("CHANGELOG present", "commit signing")
  {
    hide Says;
    SaysNot("CHANGELOG present", "commit signing", 2);
    SaysAtStart("CHANGELOG present", "CHANGELOG");
  }

  lemma SigningGate(x: Item)
    requires x in FromGateList(13, map["commit_signing" := "Commit signing: "], GATES)
    ensures !Passing(x)
  {
    GateNames();
    GateMembers(13, map["commit_signing" := "Commit signing: "], GATES, x);
  }

  // ---- The sample's verdict ----

  function One(b: bool): nat {
    if b then 1 else 0
  }

  lemma MetOne(ev: seq<Evidence>, domain: string, a: string)
    ensures Met(ev, domain, [a]) == One(Found(ev, domain, a))
  {
    hide Found;
    assert [a][..0] == [];
  }

  lemma MetTwo(ev: seq<Evidence>, domain: string, a: string, b: string)
    ensures Met(ev, domain, [a, b]) == One(Found(ev, domain, a)) + One(Found(ev, domain, b))
  {
    hide Found;
    assert [a, b][..1] == [a];
    MetOne(ev, domain, a);
  }

  lemma MetThree(ev: seq<Evidence>, domain: string, a: string, b: string, c: string)
    ensures Met(ev, domain, [a, b, c]) ==
            One(Found(ev, domain, a)) + One(Found(ev, domain, b)) + One(Found(ev, domain, c))
  {
    hide Found;
    assert [a, b, c][..2] == [a, b];
    MetTwo(ev, domain, a, b);
  }

  lemma FoundAs(later: bool, d: nat, i: nat)
    requires d < DOMAINS && i < |Def(d).required|
    ensures Found(Collect(Sample(later), GATES), Def(d).name, Def(d).required[i]) <==>
            Reports(Gathered(later), d, Def(d).required[i])
  {
    hide Def, Items, Sample, GATES, Found, Reports, ValidItems;
    ItemsAreValid(Sample(later), GATES);
    SignalsArePlain(d);
    FoundIffReported(Gathered(later), d, Def(d).required[i]);
  }

  // Signals met in the domains that ask for one, two and three.
  lemma SingleSignals(later: bool, d: nat)
    requires d in {1, 3, 6, 15}
    ensures Met(Collect(Sample(later), GATES), Def(d).name, Def(d).required) == |Def(d).required| == 1
  {
    hide Sample, GATES, Found, Reports, Collect, Gathered;
    FoundAs(later, d, 0);
    MetOne(Collect(Sample(later), GATES), Def(d).name, Def(d).required[0]);
    FilesReported(later);
    SecretsReported(later);
    GatesReported(later);
  }

  lemma DoubleSignals(later: bool, d: nat)
    requires d in {0, 12, 13}
    ensures |Def(d).required| == 2
    ensures Met(Collect(Sample(later), GATES), Def(d).name, Def(d).required) == One(d != 13 || later)
  {
    hide Sample, GATES, Found, Reports, Collect, Gathered;
    FoundAs(later, d, 0);
    FoundAs(later, d, 1);
    MetTwo(Collect(Sample(later), GATES), Def(d).name, Def(d).required[0], Def(d).required[1]);
    FilesReported(later);
    SampleNotReviewed(later);
    GatesReported(later);
    NoTestReported(later);
    ChangesReported(later);
  }

  lemma TripleSignals(later: bool)
    ensures |Def(2).required| == 3 && Met(Collect(Sample(later), GATES), Def(2).name, Def(2).required) == 2
  {
    hide Sample, GATES, Found, Reports, Collect, Gathered;
    FoundAs(later, 2, 0);
    FoundAs(later, 2, 1);
    FoundAs(later, 2, 2);
    var r := Def(2).required;
    MetThree(Collect(Sample(later), GATES), Def(2).name, r[0], r[1], r[2]);
    FilesReported(later);
    NoCiReported(later);
  }

  lemma AskingNothing(later: bool, d: nat)
    requires d in {4, 5, 8, 9, 10, 11, 16, 17}
    ensures Def(d).required == [] && Coverage(Def(d), Collect(Sample(later), GATES)) == 1.0
  {
    assert Def(d).required == [];
    hide Def, Sample, GATES, CountOf, Items, ValidItems;
    SomeEvidence(later);
    MoreEvidence(later);
    ItemsAreValid(Sample(later), GATES);
    CountedIffPresent(Gathered(later), d);
  }

  // What a domain adds: coverage at least, major gaps exactly, inconclusive domains at most.
  datatype Share = Share(coverage: real, gaps: nat, unsure: nat)

  function ShareOf(d: nat, later: bool): Share {
    if d == 7 || d == 14 || (d == 13 && !later) then Share(0.0, 0, 1)
    else if d == 0 || d == 12 || d == 13 then Share(0.5, 1, 0)
    else if d == 2 then Share(0.66, 1, 0)
    else Share(1.0, 0, 0)
  }

  predicate Gives(x: Domain, s: Share) {
    && x.coverage >= s.coverage && (if x.status == "gaps" then |x.missing| else 0) == s.gaps
    && (x.status == "inconclusive" ==> s.unsure == 1) && x.status != "blocked"
  }

  lemma LockDomains(d: nat)
    requires d == 7 || d == 14
    ensures |Def(d).required| == 1
  {
  }

  lemma UncoveredNotCritical(d: nat)
    requires d == 7 || d == 13 || d == 14
    ensures !Def(d).critical && !Critical(General, Def(d).name)
  {
    NamesAreDistinct(d, 2);
    NamesAreDistinct(d, 6);
    NamesAreDistinct(d, 12);
    NamesAreDistinct(d, 15);
  }

  lemma DomainGives(d: nat, later: bool)
    requires d < DOMAINS
    ensures Gives(Evaluate(Overlay(General, DefaultDomains())[d], Collect(Sample(later), GATES)), ShareOf(d, later))
  {
    hide Def, Collect, Sample, GATES, Met, Missing, CountOf, Critical, Findings;
    var def, ev := Overlay(General, DefaultDomains())[d], Collect(Sample(later), GATES);
    CertificationVerdict.MissingExactly(ev, Def(d).name, Def(d).required);
    CoverageIgnoresCritical(Def(d), def.critical, ev);
    if d in {4, 5, 8, 9, 10, 11, 16, 17} {
      AskingNothing(later, d);
    } else if d in {1, 3, 6, 15} {
      SingleSignals(later, d);
    } else if d == 2 {
      TripleSignals(later);
    } else if d == 7 || d == 14 {
      LockDomains(d);
      UncoveredNotCritical(d);
    } else {
      DoubleSignals(later, d);
      if d == 13 {
        UncoveredNotCritical(d);
      }
    }
  }

  function Shares(k: nat, later: bool): Share {
    if k == 0 then Share(0.0, 0, 0)
    else
      var s, t := Shares(k - 1, later), ShareOf(k - 1, later);
      Share(s.coverage + t.coverage, s.gaps + t.gaps, s.unsure + t.unsure)
  }

  lemma {:induction false} Tally(ds: seq<Domain>, k: nat, later: bool)
    requires k <= |ds| && forall d :: 0 <= d < k ==> Gives(ds[d], ShareOf(d, later))
    ensures var s := Shares(k, later);
            && CoverageSum(ds[..k], false) >= s.coverage && GapCount(ds[..k]) == s.gaps
            && DomainsWith(ds[..k], "inconclusive") <= s.unsure
    decreases k
  {
    hide ShareOf;
    if k > 0 {
      Tally(ds, k - 1, later);
      assert ds[..k][..k - 1] == ds[..k - 1];
    }
  }

  lemma Totals(later: bool)
    ensures Shares(18, later) == if later then Share(14.16, 4, 2) else Share(13.66, 3, 3)
  {
    assert Shares(1, later) == Share(0.5, 1, 0);
    assert Shares(2, later) == Share(1.5, 1, 0);
    assert Shares(4, later) == Share(3.16, 2, 0);
    assert Shares(6, later) == Share(5.16, 2, 0);
    assert Shares(8, later) == Share(6.16, 2, 1);
    assert Shares(10, later) == Share(8.16, 2, 1);
    assert Shares(12, later) == Share(10.16, 2, 1);
    assert Shares(14, later) == if later then Share(11.16, 4, 1) else Share(10.66, 3, 2);
    assert Shares(16, later) == if later then Share(12.16, 4, 2) else Share(11.66, 3, 3);
  }

  lemma SampleStatus(later: bool)
    ensures RunOf(General, Sample(later), GATES).status == if later then "READY WITH GAPS" else "READY"
  {
    hide Score, Evaluate, Shares, ShareOf, Collect, GatesWith, GateBlocks;
    var ds := EvaluateAll(Overlay(General, DefaultDomains()), Collect(Sample(later), GATES));
    forall d | 0 <= d < DOMAINS ensures Gives(ds[d], ShareOf(d, later)) {
      DomainGives(d, later);
    }
    Tally(ds, DOMAINS, later);
    assert ds[..DOMAINS] == ds;
    Totals(later);
    GatesOfSample();
    EnoughEvidence(later);
  }

  lemma GatesOfSample()
    ensures !GateBlocks(GATES) && GatesWith(GATES, "skipped") <= 2
  {
  }

  lemma EnoughEvidence(later: bool)
    ensures |Collect(Sample(later), GATES)| >= 5
  {
    hide Items, Sample, GATES, DomainsIn;
    SomeEvidence(later);
    MoreEvidence(later);
    SubsetSize({4, 5, 8, 9, 10}, DomainsIn(Gathered(later)));
    NoMoreDomainsThanItems(Gathered(later));
  }

  // One file more, CHANGELOG.md, and the run is READY no longer: Change Management rises from
  // inconclusive, where missing controls do not count, to gaps, where they do.
  lemma EvidenceMayCostReady()
    ensures Grown(Sample(false), Sample(true)) && Sample(true).files == Sample(false).files + {"CHANGELOG.md"}
    ensures RunOf(General, Sample(false), GATES).status == "READY"
    ensures RunOf(General, Sample(true), GATES).status == "READY WITH GAPS"
  {
    hide RunOf, FILES, GATES;
    SampleStatus(false);
    SampleStatus(true);
  }
}
