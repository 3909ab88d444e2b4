/**
A whole certification run over a directory: the evidence collected from its files and from
the gates, judged against the eighteen built-in domains.
*/
module CertificationRun {
  import opened Text
  import opened Certification

  // ---- The built-in domains ----

  const DOMAINS: nat := 18

  function Def(d: nat): Definition {
    match d
    case 0 => Definition("Governance & Organizational Controls", ["contributing", "code review"], false)
    case 1 => Definition("Legal & Regulatory Compliance", ["LICENSE"], false)
    case 2 => Definition("Secure Software Development Lifecycle", [".gitignore", "CI", "SECURITY"], false)
    case 3 => Definition("Identity & Access Management", ["secrets excluded"], false)
    case 4 => Definition("Data Security & Privacy", [], false)
    case 5 => Definition("Infrastructure & Cloud Security", [], false)
    case 6 => Definition("Application Security", ["security gate"], true)
    case 7 => Definition("Vulnerability & Patch Management", ["lockfile"], false)
    case 8 => Definition("Logging, Monitoring & Detection", [], false)
    case 9 => Definition("Incident Response", [], false)
    case 10 => Definition("Business Continuity & Disaster Recovery", [], false)
    case 11 => Definition("Performance & Reliability", [], false)
    case 12 => Definition("Software Quality Assurance", ["test gate", "build gate"], true)
    case 13 => Definition("Change Management", ["commit signing", "CHANGELOG"], false)
    case 14 => Definition("Supply Chain & Third-Party Security", ["lockfile"], false)
    case 15 => Definition("Documentation & Audit Evidence", ["README"], true)
    case 16 => Definition("User Protection & Safety", [], false)
    case _ => Definition("Training & Awareness", [], false)
  }

  function DefaultDomains(): (r: seq<Definition>)
    ensures |r| == DOMAINS && forall d :: 0 <= d < DOMAINS ==> r[d] == Def(d)
  {
    seq(DOMAINS, d requires 0 <= d < DOMAINS => Def(d))
  }

  function Weight(name: string): int {
    |name| * 256 + if name == "" then 0 else name[0] as int
  }

  lemma Weights0()
    ensures Weight(Def(0).name) == 9287
    ensures Weight(Def(1).name) == 7500
    ensures Weight(Def(2).name) == 9555
  {
  }

  lemma Weights1()
    ensures Weight(Def(3).name) == 7241
    ensures Weight(Def(4).name) == 5956
    ensures Weight(Def(5).name) == 8009
  {
  }

  lemma Weights2()
    ensures Weight(Def(6).name) == 5185
    ensures Weight(Def(7).name) == 8278
    ensures Weight(Def(8).name) == 8012
  {
  }

  lemma Weights3()
    ensures Weight(Def(9).name) == 4425
    ensures Weight(Def(10).name) == 10050
    ensures Weight(Def(11).name) == 6480
  {
  }

  lemma Weights4()
    ensures Weight(Def(12).name) == 6739
    ensures Weight(Def(13).name) == 4419
    ensures Weight(Def(14).name) == 9043
  {
  }

  lemma Weights5()
    ensures Weight(Def(15).name) == 7748
    ensures Weight(Def(16).name) == 6229
    ensures Weight(Def(17).name) == 5204
  {
  }

  lemma Weights(d: nat)
    requires d < DOMAINS
    ensures Weight(Def(d).name) ==
            [9287, 7500, 9555, 7241, 5956, 8009, 5185, 8278, 8012, 4425, 10050, 6480, 6739, 4419, 9043, 7748, 6229, 5204][d]
  {
    hide Def, Weight;
    Weights0();
    Weights1();
    Weights2();
    Weights3();
    Weights4();
    Weights5();
  }

  lemma NamesAreDistinct(d: nat, e: nat)
    requires d < DOMAINS && e < DOMAINS
    ensures Def(d).name == Def(e).name <==> d == e
  {
    hide Def, Weight;
    Weights(d);
    Weights(e);
  }

  // ---- Collecting evidence ----

  // What the collector looks at: which paths exist, whether .gitignore names secrets, and the
  // number of source files of high complexity.
  datatype Tree = Tree(files: set<string>, secretsIgnored: bool, complexFiles: nat)

  // Evidence before it is numbered.
  datatype Item = Item(domain: nat, status: string, executionBacked: bool, summary: string)

  datatype Probe =
    | AnyFile(paths: seq<string>, executionBacked: bool, summary: string)
    | SecretsIgnored
    | FromGates(prefixes: map<string, string>)
    | ComplexFiles

  function FromGateList(domain: nat, prefixes: map<string, string>, gates: seq<Gate>): seq<Item> {
    if gates == [] then []
    else
      var g := gates[0];
      (if g.name in prefixes then [Item(domain, g.status, true, prefixes[g.name] + g.detail)] else []) +
      FromGateList(domain, prefixes, gates[1..])
  }

  function Emit(domain: nat, p: Probe, t: Tree, gates: seq<Gate>): seq<Item> {
    match p
    case AnyFile(paths, backed, summary) =>
      if exists i :: 0 <= i < |paths| && paths[i] in t.files then [Item(domain, "pass", backed, summary)] else []
    case SecretsIgnored =>
      if ".gitignore" in t.files && t.secretsIgnored
      then [Item(domain, "pass", false, "Secrets excluded via .gitignore")] else []
    case FromGates(prefixes) => FromGateList(domain, prefixes, gates)
    case ComplexFiles =>
      if t.complexFiles > 0
      then [Item(domain, "partial", false, Decimal(t.complexFiles) + " high-complexity files detected")] else []
  }

  function EmitAll(domain: nat, probes: seq<Probe>, t: Tree, gates: seq<Gate>): seq<Item> {
    if probes == [] then [] else Emit(domain, probes[0], t, gates) + EmitAll(domain, probes[1..], t, gates)
  }

  function File(path: string, summary: string): Probe {
    AnyFile([path], false, summary)
  }

  const SECTIONS: nat := 20

  // The domain each group of probes speaks for, in the collector's order.
  function DomainOf(k: nat): (d: nat)
    ensures d < DOMAINS
  {
    match k
    case 0 => 0
    case 1 => 1
    case 2 => 2
    case 3 => 3
    case 4 => 5
    case 5 => 6
    case 6 => 7
    case 7 => 8
    case 8 => 9
    case 9 => 11
    case 10 => 12
    case 11 => 13
    case 12 => 14
    case 13 => 15
    case 14 => 16
    case 15 => 17
    case 16 => 12
    case 17 => 11
    case 18 => 10
    case _ => 4
  }

  function ProbesOf(k: nat): seq<Probe> {
    match k
    case 0 => [File("CONTRIBUTING.md", "CONTRIBUTING.md present"),
              AnyFile([".github/CODEOWNERS", "CODEOWNERS"], false, "CODEOWNERS defined")]
    case 1 => [File("LICENSE", "LICENSE file present"), File("LICENSE.md", "LICENSE file present"),
              File("NOTICE", "NOTICE file present")]
    case 2 => [File(".gitignore", ".gitignore configured"),
              File(".github/workflows", "CI workflows present"),
              File(".gitlab-ci.yml", "GitLab CI present"), File("SECURITY.md", "Security policy defined")]
    case 3 => [SecretsIgnored]
    case 4 => [File("Dockerfile", "Dockerfile present"),
              File("docker-compose.yml", "Docker Compose present"),
              File("docker-compose.yaml", "Docker Compose present")]
    case 5 => [FromGates(map["security_critical" := "Security gate: "])]
    case 6 => [File("package-lock.json", "Package lockfile present"),
              File("Cargo.lock", "Cargo lockfile present"), File("go.sum", "Go sum file present"),
              File("poetry.lock", "Poetry lockfile present")]
    case 7 => [AnyFile(["data/runtime/metrics", "metrics"], false, "Metrics directory present"),
              File("data/gateway/audit", "Audit log directory present")]
    case 8 => [File("SECURITY.md", "Security policy with contact info")]
    case 9 => [File("data/config/targets.json", "SLA targets defined")]
    case 10 => [FromGates(map["unit_test_health" := "Test gate: ", "build_integrity" := "Build gate: "]),
              ComplexFiles]
    case 11 => [FromGates(map["commit_signing" := "Commit signing: "]),
              File("CHANGELOG.md", "CHANGELOG present"), File("CHANGELOG", "CHANGELOG present")]
    case 12 => [File("vcpkg.json", "vcpkg manifest present"),
              File("package-lock.json", "npm lockfile present"),
              File("Cargo.lock", "Cargo lockfile present")]
    case 13 => [File("README.md", "README present"), File("docs", "docs/ directory present"),
              FromGates(map["documentation_accuracy" := "Docs gate: "])]
    case 14 => [AnyFile(["src/pii_filter.cpp", "apps/cli/src/pii_filter.cpp"], false, "PII filter present")]
    case 15 => [File("docs/guides", "Guides directory present"),
              File("ONBOARDING.md", "Onboarding docs present")]
    case 16 => [AnyFile(["data/runtime/sessions/latest_verdict.json"], true,
              "Recent Euxis verdict artifact present")]
    case 17 => [File("data/config/router.json", "Model routing configuration present")]
    case 18 => [File("BACKUP.md", "Backup documentation present"),
              File("docs/disaster-recovery.md", "DR docs present")]
    case _ => [File("PRIVACY.md", "Privacy policy present")]
  }

  function EmitSection(k: nat, t: Tree, gates: seq<Gate>): seq<Item> {
    EmitAll(DomainOf(k), ProbesOf(k), t, gates)
  }

  function Items(k: nat, t: Tree, gates: seq<Gate>): seq<Item> {
    if k == 0 then [] else Items(k - 1, t, gates) + EmitSection(k - 1, t, gates)
  }

  function Id(i: nat): string {
    "ev-" + Decimal(i + 1)
  }

  function Number(items: seq<Item>): (r: seq<Evidence>)
    ensures |r| == |items|
    ensures forall i :: 0 <= i < |r| ==>
      r[i] == Evidence(Id(i), Def(items[i].domain).name, items[i].status, items[i].executionBacked, items[i].summary)
  {
    seq(|items|, i requires 0 <= i < |items| =>
      Evidence(Id(i), Def(items[i].domain).name, items[i].status, items[i].executionBacked, items[i].summary))
  }

  function Collect(t: Tree, gates: seq<Gate>): seq<Evidence> {
    Number(Items(SECTIONS, t, gates))
  }

  // run_certification, given what the gates say and what the collector finds.
  function RunOf(f: Framework, t: Tree, gates: seq<Gate>): Verdict {
    Certify(f, DefaultDomains(), gates, Collect(t, gates))
  }

  // ---- No signal hides in an id ----

  predicate IdChar(c: char) {
    c == 'e' || c == 'v' || c == '-' || IsDigit(c)
  }

  predicate Plain(signal: string) {
    signal != "" && !IdChar(signal[0])
  }

  predicate AllPlain(signals: seq<string>) {
    forall i :: 0 <= i < |signals| ==> Plain(signals[i])
  }

  lemma SomeArePlain(d: nat)
    requires d < 6
    ensures AllPlain(Def(d).required)
  {
  }

  lemma OthersArePlain(d: nat)
    requires 6 <= d < 13
    ensures AllPlain(Def(d).required)
  {
  }

  lemma LastArePlain(d: nat)
    requires 13 <= d < DOMAINS
    ensures AllPlain(Def(d).required)
  {
  }

  lemma SignalsArePlain(d: nat)
    requires d < DOMAINS
    ensures AllPlain(Def(d).required)
  {
    hide Def, AllPlain;
    if d < 6 {
      SomeArePlain(d);
    } else if d < 13 {
      OthersArePlain(d);
    } else {
      LastArePlain(d);
    }
  }

  lemma IdsNameNothing(i: nat, signal: string)
    requires Plain(signal)
    ensures !Has(Id(i), signal)
  {
    FirstCharFound(Id(i), signal);
    var ds := Decimal(i + 1);
    assert forall c :: c in "ev-" ==> IdChar(c);
    assert forall c :: c in ds ==> IdChar(c);
  }

  lemma FirstCharFound(s: string, part: string)
    requires part != ""
    ensures Has(s, part) ==> part[0] in s
  {
    var r := Find(s, part, 0);
    if r.Some? {
      assert s[r.value + 0] == part[0];
    }
  }

  // ---- What the collector reports for a domain ----

  predicate Says(summary: string, signal: string) {
    Has(summary, signal) || Has(Lower(summary), Lower(signal))
  }

  predicate Passing(x: Item) {
    x.status == "pass" || x.status == "partial"
  }

  ghost predicate Reports(items: seq<Item>, d: nat, signal: string) {
    exists x :: x in items && x.domain == d && Passing(x) && Says(x.summary, signal)
  }

  ghost predicate ValidItems(items: seq<Item>) {
    forall x :: x in items ==> x.domain < DOMAINS
  }

  lemma FoundIffReported(items: seq<Item>, d: nat, signal: string)
    requires d < DOMAINS && Plain(signal) && ValidItems(items)
    ensures Found(Number(items), Def(d).name, signal) <==> Reports(items, d, signal)
  {
    hide Def, Has, Id, Lower, Plain;
    var ev := Number(items);
    forall i | 0 <= i < |items|
      ensures Counts(ev[i], Def(d).name) && (Names(ev[i], signal) || NamesLoosely(ev[i], signal)) <==>
              items[i].domain == d && Passing(items[i]) && Says(items[i].summary, signal)
    {
      assert items[i] in items;
      NamesAreDistinct(items[i].domain, d);
      IdsNameNothing(i, signal);
    }
  }

  lemma CountedIffPresent(items: seq<Item>, d: nat)
    requires d < DOMAINS && ValidItems(items)
    ensures CountOf(Number(items), Def(d).name) > 0 <==> exists x :: x in items && x.domain == d
  {
    hide Def, Id;
    var ev := Number(items);
    NoneOfDomain(ev, Def(d).name);
    forall i | 0 <= i < |items| ensures ev[i].domain == Def(d).name <==> items[i].domain == d {
      assert items[i] in items;
      NamesAreDistinct(items[i].domain, d);
    }
  }

  lemma {:induction false} GateMembers(domain: nat, prefixes: map<string, string>, gates: seq<Gate>, x: Item)
    ensures x in FromGateList(domain, prefixes, gates) <==>
            exists i :: 0 <= i < |gates| && gates[i].name in prefixes &&
              x == Item(domain, gates[i].status, true, prefixes[gates[i].name] + gates[i].detail)
    decreases |gates|
  {
    if gates != [] {
      GateMembers(domain, prefixes, gates[1..], x);
      assert gates == [gates[0]] + gates[1..];
    }
  }

  lemma {:induction false} EmitAllMembers(domain: nat, probes: seq<Probe>, t: Tree, gates: seq<Gate>, x: Item)
    ensures x in EmitAll(domain, probes, t, gates) <==>
            exists i :: 0 <= i < |probes| && x in Emit(domain, probes[i], t, gates)
    decreases |probes|
  {
    hide Emit;
    if probes != [] {
      EmitAllMembers(domain, probes[1..], t, gates, x);
      assert probes == [probes[0]] + probes[1..];
    }
  }

  lemma EmitDomain(domain: nat, p: Probe, t: Tree, gates: seq<Gate>, x: Item)
    requires x in Emit(domain, p, t, gates)
    ensures x.domain == domain
  {
    if p.FromGates? {
      GateMembers(domain, p.prefixes, gates, x);
    }
  }

  lemma {:induction false} ItemsMembers(k: nat, t: Tree, gates: seq<Gate>, x: Item)
    ensures x in Items(k, t, gates) <==> exists j: nat :: j < k && x in EmitSection(j, t, gates)
    decreases k
  {
    hide EmitSection;
    if k > 0 {
      ItemsMembers(k - 1, t, gates, x);
    }
  }

  lemma SectionDomain(k: nat, t: Tree, gates: seq<Gate>, x: Item)
    requires x in EmitSection(k, t, gates)
    ensures x.domain == DomainOf(k)
  {
    hide ProbesOf, Emit;
    EmitAllMembers(DomainOf(k), ProbesOf(k), t, gates, x);
    var i :| 0 <= i < |ProbesOf(k)| && x in Emit(DomainOf(k), ProbesOf(k)[i], t, gates);
    EmitDomain(DomainOf(k), ProbesOf(k)[i], t, gates, x);
  }

  lemma ItemsAreValid(t: Tree, gates: seq<Gate>)
    ensures ValidItems(Items(SECTIONS, t, gates))
  {
    hide Items, EmitSection, ProbesOf;
    forall x | x in Items(SECTIONS, t, gates) ensures x.domain < DOMAINS {
      ItemsMembers(SECTIONS, t, gates, x);
      var j: nat :| j < SECTIONS && x in EmitSection(j, t, gates);
      SectionDomain(j, t, gates, x);
    }
  }

  // An item of a probe of a section is among the items collected.
  lemma Collected(k: nat, i: nat, t: Tree, gates: seq<Gate>, x: Item)
    requires k < SECTIONS && i < |ProbesOf(k)|
    requires x in Emit(DomainOf(k), ProbesOf(k)[i], t, gates)
    ensures x in Items(SECTIONS, t, gates)
  {
    hide Emit, ProbesOf, Items;
    EmitAllMembers(DomainOf(k), ProbesOf(k), t, gates, x);
    assert x in EmitSection(k, t, gates);
    ItemsMembers(SECTIONS, t, gates, x);
  }

  // Whatever is collected for a domain comes from a probe of one of its sections.
  lemma Origin(d: nat, t: Tree, gates: seq<Gate>, x: Item) returns (k: nat, i: nat)
    requires x in Items(SECTIONS, t, gates) && x.domain == d
    ensures k < SECTIONS && DomainOf(k) == d && i < |ProbesOf(k)|
    ensures x in Emit(d, ProbesOf(k)[i], t, gates)
  {
    hide Emit, ProbesOf, Items;
    ItemsMembers(SECTIONS, t, gates, x);
    k :| k < SECTIONS && x in EmitSection(k, t, gates);
    SectionDomain(k, t, gates, x);
    EmitAllMembers(d, ProbesOf(k), t, gates, x);
    i :| 0 <= i < |ProbesOf(k)| && x in Emit(d, ProbesOf(k)[i], t, gates);
  }

  // ---- Saying and not saying ----

  // A text that begins with a signal, in either case, says it.
  lemma SaysAtStart(summary: string, signal: string)
    requires |signal| <= |summary|
    requires forall k :: 0 <= k < |signal| ==> LowerChar(summary[k]) == LowerChar(signal[k])
    ensures Says(summary, signal)
  {
    assert Occurs(Lower(summary), Lower(signal), 0);
  }

  // A text without one of a signal's letters, in either case, does not say it.
  lemma SaysNot(summary: string, signal: string, i: nat)
    requires i < |signal| && forall k :: 0 <= k < |summary| ==> LowerChar(summary[k]) != LowerChar(signal[i])
    ensures !Says(summary, signal)
  {
    PartFound(summary, signal, i);
    PartFound(Lower(summary), Lower(signal), i);
  }

  lemma PartFound(s: string, part: string, i: nat)
    requires i < |part|
    ensures Has(s, part) ==> exists k :: 0 <= k < |s| && s[k] == part[i]
  {
    var r := Find(s, part, 0);
    if r.Some? {
      assert s[r.value + i] == part[i];
    }
  }

  // ---- More files, no less coverage ----

  // Files were added; the number of complex source files may be any other.
  predicate Grown(t: Tree, t': Tree) {
    t.files <= t'.files && (t.secretsIgnored ==> t'.secretsIgnored)
  }

  // The note on complex files, the one item that more files may change or take away.
  predicate ComplexNote(x: Item, n: nat) {
    x.domain == 12 && x.summary == Decimal(n) + " high-complexity files detected"
  }

  lemma EmitGrows(domain: nat, p: Probe, t: Tree, t': Tree, gates: seq<Gate>, x: Item)
    requires Grown(t, t') && x in Emit(domain, p, t, gates) && !p.ComplexFiles?
    ensures x in Emit(domain, p, t', gates)
  {
    if p.AnyFile? {
      var i :| 0 <= i < |p.paths| && p.paths[i] in t.files;
      assert p.paths[i] in t'.files;
    }
  }

  lemma FirstHaveNone(k: nat, i: nat)
    requires 0 <= k < 5 && i < |ProbesOf(k)|
    ensures !ProbesOf(k)[i].ComplexFiles?
  {
  }

  lemma SecondHaveNone(k: nat, i: nat)
    requires 5 <= k < 10 && i < |ProbesOf(k)|
    ensures !ProbesOf(k)[i].ComplexFiles?
  {
  }

  lemma ThirdHaveNone(k: nat, i: nat)
    requires 11 <= k < 15 && i < |ProbesOf(k)|
    ensures !ProbesOf(k)[i].ComplexFiles?
  {
  }

  lemma LastHaveNone(k: nat, i: nat)
    requires 15 <= k < 20 && i < |ProbesOf(k)|
    ensures !ProbesOf(k)[i].ComplexFiles?
  {
  }

  lemma ComplexFilesAreQuality(k: nat, i: nat)
    requires k < SECTIONS && i < |ProbesOf(k)| && ProbesOf(k)[i].ComplexFiles?
    ensures k == 10
  {
    hide ProbesOf;
    if k < 5 {
      FirstHaveNone(k, i);
    } else if k < 10 {
      SecondHaveNone(k, i);
    } else if 11 <= k < 15 {
      ThirdHaveNone(k, i);
    } else if 15 <= k {
      LastHaveNone(k, i);
    }
  }

  lemma ItemKept(t: Tree, t': Tree, gates: seq<Gate>, x: Item)
    requires Grown(t, t') && x in Items(SECTIONS, t, gates)
    ensures x in Items(SECTIONS, t', gates) || ComplexNote(x, t.complexFiles)
  {
    hide ProbesOf, Items, Grown;
    var k, i := Origin(x.domain, t, gates, x);
    if ProbesOf(k)[i].ComplexFiles? {
      ComplexFilesAreQuality(k, i);
    } else {
      EmitGrows(x.domain, ProbesOf(k)[i], t, t', gates, x);
      Collected(k, i, t', gates, x);
    }
  }

  lemma ComplexNoteSaysNothing(n: nat)
    ensures var note := Decimal(n) + " high-complexity files detected";
            !Says(note, "test gate") && !Says(note, "build gate")
  {
    hide Says;
    var note := Decimal(n) + " high-complexity files detected";
    assert forall k :: 0 <= k < |Decimal(n)| ==> IsDigit(Decimal(n)[k]);
    SaysNot(note, "test gate", 6);
    SaysNot(note, "build gate", 7);
  }

  lemma QualitySignals()
    ensures Def(12).required == ["test gate", "build gate"]
  {
  }

  // A signal once reported stays so.
  lemma ReportKept(t: Tree, t': Tree, gates: seq<Gate>, d: nat, i: nat)
    requires Grown(t, t') && d < DOMAINS && i < |Def(d).required|
    requires Reports(Items(SECTIONS, t, gates), d, Def(d).required[i])
    ensures Reports(Items(SECTIONS, t', gates), d, Def(d).required[i])
  {
    hide Def, Items, Says, Grown;
    var s := Def(d).required[i];
    var x :| x in Items(SECTIONS, t, gates) && x.domain == d && Passing(x) && Says(x.summary, s);
    ItemKept(t, t', gates, x);
    QualitySignals();
    ComplexNoteSaysNothing(t.complexFiles);
  }

  // Adding files never lowers the coverage of a built-in domain.
  lemma MoreFilesCover(t: Tree, t': Tree, gates: seq<Gate>, d: nat)
    requires Grown(t, t') && d < DOMAINS
    ensures 0.0 <= Coverage(Def(d), Collect(t, gates)) <= Coverage(Def(d), Collect(t', gates)) <= 1.0
  {
    hide Def, Items, Found, Reports, Grown, CountOf, Coverage, ValidItems, Number, Plain;
    var items, items' := Items(SECTIONS, t, gates), Items(SECTIONS, t', gates);
    var req := Def(d).required;
    ItemsAreValid(t, gates);
    ItemsAreValid(t', gates);
    SignalsArePlain(d);
    forall s | s in req && Found(Number(items), Def(d).name, s) ensures Found(Number(items'), Def(d).name, s) {
      var i :| 0 <= i < |req| && req[i] == s;
      FoundIffReported(items, d, s);
      FoundIffReported(items', d, s);
      ReportKept(t, t', gates, d, i);
    }
    if req == [] {
      StillPresent(t, t', gates, d);
      CountedIffPresent(items, d);
      CountedIffPresent(items', d);
    }
    CoverageFollows(Def(d), Number(items), Number(items'));
  }

  lemma StillPresent(t: Tree, t': Tree, gates: seq<Gate>, d: nat)
    requires Grown(t, t') && d < DOMAINS && Def(d).required == []
    ensures (exists x :: x in Items(SECTIONS, t, gates) && x.domain == d) ==>
            exists x :: x in Items(SECTIONS, t', gates) && x.domain == d
  {
    hide Def, Items, Grown;
    QualitySignals();
    if x :| x in Items(SECTIONS, t, gates) && x.domain == d {
      ItemKept(t, t', gates, x);
    }
  }

  // ---- A run that passes has evidence to spare ----

  ghost function DomainsIn(items: seq<Item>): set<nat> {
    set x | x in items :: x.domain
  }

  lemma {:induction false} NoMoreDomainsThanItems(items: seq<Item>)
    ensures |DomainsIn(items)| <= |items|
    decreases |items|
  {
    if items != [] {
      var k := |items| - 1;
      NoMoreDomainsThanItems(items[..k]);
      assert items == items[..k] + [items[k]];
      assert DomainsIn(items) == DomainsIn(items[..k]) + {items[k].domain};
    }
  }

  ghost function Conclusive(ds: seq<Domain>, k: nat): set<nat>
    requires k <= |ds|
  {
    set d: nat | d < k && ds[d].status != "inconclusive"
  }

  lemma {:induction false} ConclusiveCount(ds: seq<Domain>, k: nat)
    requires k <= |ds|
    ensures |Conclusive(ds, k)| == k - DomainsWith(ds[..k], "inconclusive")
    decreases k
  {
    if k == 0 {
      assert Conclusive(ds, 0) == {};
    } else {
      ConclusiveCount(ds, k - 1);
      assert ds[..k][..k - 1] == ds[..k - 1];
      if ds[k - 1].status == "inconclusive" {
        assert Conclusive(ds, k) == Conclusive(ds, k - 1);
      } else {
        assert Conclusive(ds, k) == Conclusive(ds, k - 1) + {k - 1};
      }
    }
  }

  // Covered domains have evidence.
  lemma CoveredHasItem(items: seq<Item>, d: nat)
    requires d < DOMAINS && ValidItems(items) && Coverage(Def(d), Number(items)) > 0.0
    ensures d in DomainsIn(items)
  {
    hide Def, ValidItems, Number, Found, Reports, CountOf;
    CountedIffPresent(items, d);
    if Def(d).required != [] {
      MetSomewhere(Number(items), Def(d).name, Def(d).required);
    }
  }

  lemma {:induction false} MetSomewhere(ev: seq<Evidence>, domain: string, signals: seq<string>)
    ensures Met(ev, domain, signals) > 0 ==> CountOf(ev, domain) > 0
    decreases |signals|
  {
    hide Names, NamesLoosely, CountOf;
    if signals != [] {
      MetSomewhere(ev, domain, signals[..|signals| - 1]);
      NoneOfDomain(ev, domain);
    }
  }

  // At least half of the domains are covered in a run that passes, so half of them are in one
  // that covers as much.
  lemma EvidenceToSpare(f: Framework, t: Tree, t': Tree, gates: seq<Gate>)
    requires Grown(t, t') && RunOf(f, t, gates).exitCode == 0
    ensures |Collect(t', gates)| >= 9
  {
    hide Def, Items, Grown, ValidItems, Coverage, Score, GapCount, Average, DomainsIn;
    var defs := Overlay(f, DefaultDomains());
    var ds := EvaluateAll(defs, Collect(t, gates));
    var items' := Items(SECTIONS, t', gates);
    ItemsAreValid(t', gates);
    ConclusiveCount(ds, DOMAINS);
    assert ds[..DOMAINS] == ds;
    forall d | d in Conclusive(ds, DOMAINS) ensures d in DomainsIn(items') {
      assert !(ds[d].critical && ds[d].status == "blocked");
      ConclusiveIsCovered(defs[d], Collect(t, gates));
      CoverageIgnoresCritical(Def(d), defs[d].critical, Collect(t, gates));
      MoreFilesCover(t, t', gates, d);
      CoveredHasItem(items', d);
    }
    SubsetSize(Conclusive(ds, DOMAINS), DomainsIn(items'));
    NoMoreDomainsThanItems(items');
  }

  lemma ConclusiveIsCovered(def: Definition, ev: seq<Evidence>)
    requires Evaluate(def, ev).status != "inconclusive"
    requires !(def.critical && Evaluate(def, ev).status == "blocked")
    ensures Coverage(def, ev) > 0.0
  {
  }

  lemma CoverageIgnoresCritical(def: Definition, critical: bool, ev: seq<Evidence>)
    ensures Coverage(def.(critical := critical), ev) == Coverage(def, ev)
  {
  }

  lemma {:induction false} SubsetSize(a: set<nat>, b: set<nat>)
    requires a <= b
    ensures |a| <= |b|
    decreases |a|
  {
    if a != {} {
      var x :| x in a;
      SubsetSize(a - {x}, b - {x});
    }
  }

  // With the gates unchanged, adding files to a directory, whatever that does to the number of
  // complex ones, never turns its exit code from 0 to 1.
  lemma MoreFilesNeverFail(f: Framework, t: Tree, t': Tree, gates: seq<Gate>)
    requires Grown(t, t') && RunOf(f, t, gates).exitCode == 0
    ensures RunOf(f, t', gates).exitCode == 0
  {
    hide Def, Finalize, Collect, Grown, Coverage, EvaluateAll;
    EvidenceToSpare(f, t, t', gates);
    var defs, ev, more := Overlay(f, DefaultDomains()), Collect(t, gates), Collect(t', gates);
    forall d | 0 <= d < |defs| ensures 0.0 <= Coverage(defs[d], ev) <= Coverage(defs[d], more) {
      MoreFilesCover(t, t', gates, d);
      CoverageIgnoresCritical(Def(d), defs[d].critical, ev);
      CoverageIgnoresCritical(Def(d), defs[d].critical, more);
    }
    CoverageDecides(defs, gates, ev, more);
  }

  // ---- Which domains a framework makes critical ----

  function CriticalSet(f: Framework): set<nat> {
    {2, 6, 12, 15} + match f
      case General => {}
      case SOC2 => {0, 3, 8, 13, 14}
      case ISO27001 => {0, 7, 9, 10, 14}
  }

  lemma GeneralNames(name: string)
    ensures GeneralCritical(name) <==>
            name == Def(2).name || name == Def(6).name || name == Def(12).name || name == Def(15).name
  {
  }

  lemma PlainGeneral(name: string)
    ensures Critical(General, name) <==> GeneralCritical(name)
  {
    hide GeneralCritical;
  }

  lemma Soc2Names(name: string)
    ensures Critical(SOC2, name) <==>
            GeneralCritical(name) || name == Def(0).name || name == Def(3).name || name == Def(8).name ||
            name == Def(13).name || name == Def(14).name
  {
    hide GeneralCritical;
  }

  lemma IsoNames(name: string)
    ensures Critical(ISO27001, name) <==>
            GeneralCritical(name) || name == Def(0).name || name == Def(7).name || name == Def(9).name ||
            name == Def(10).name || name == Def(14).name
  {
    hide GeneralCritical;
  }

  lemma OwnCritical(d: nat)
    ensures d < DOMAINS && Def(d).critical ==> d in {6, 12, 15}
  {
  }

  // The numbered domains each framework holds to be critical, of the eighteen built in.
  lemma CriticalDomains(f: Framework, d: nat)
    requires d < DOMAINS
    ensures Overlay(f, DefaultDomains())[d].critical <==> d in CriticalSet(f)
  {
    hide Def, GeneralCritical, Critical;
    OwnCritical(d);
    PlainGeneral(Def(d).name);
    GeneralNames(Def(d).name);
    Soc2Names(Def(d).name);
    IsoNames(Def(d).name);
    forall e | e in {0, 2, 3, 6, 7, 8, 9, 10, 12, 13, 14, 15} ensures Def(d).name == Def(e).name <==> d == e {
      NamesAreDistinct(d, e);
    }
  }

  // ---- A control no directory can show ----

  lemma ReviewNotSaid()
    ensures !Says("CONTRIBUTING.md present", "code review") && !Says("CODEOWNERS defined", "code review")
  {
    hide Says;
    SaysNot("CONTRIBUTING.md present", "code review", 7);
    SaysNot("CODEOWNERS defined", "code review", 7);
  }

  lemma NoReviewReported(t: Tree, gates: seq<Gate>)
    ensures !Reports(Items(SECTIONS, t, gates), 0, "code review")
  {
    ReviewNotSaid();
    hide Says, Items;
    forall x | x in Items(SECTIONS, t, gates) && x.domain == 0 ensures !Says(x.summary, "code review") {
      var k, i := Origin(0, t, gates, x);
      assert k == 0;
    }
  }

  // Nothing the collector writes mentions code review, so under every framework and whatever the
  // gates say, Governance is at most half covered and never verified.
  lemma GovernanceNeverVerified(f: Framework, t: Tree, gates: seq<Gate>)
    ensures var d := EvaluateAll(Overlay(f, DefaultDomains()), Collect(t, gates))[0];
            d.coverage <= 0.5 && d.status != "verified" && "code review" in d.missing
  {
    var ev := Collect(t, gates);
    NoReviewReported(t, gates);
    ItemsAreValid(t, gates);
    SignalsArePlain(0);
    assert Def(0).required == ["contributing", "code review"] && Plain(Def(0).required[1]);
    FoundIffReported(Items(SECTIONS, t, gates), 0, "code review");
    assert ["contributing", "code review"][..1] == ["contributing"] && ["contributing"][..0] == [];
    hide Def, Items, Found, Critical, Reports;
    assert Met(ev, Def(0).name, Def(0).required) <= 1;
    assert "code review" in Missing(ev, Def(0).name, Def(0).required);
    CoverageIgnoresCritical(Def(0), Overlay(f, DefaultDomains())[0].critical, ev);
  }
}
