/**
The certification verdict: how evidence covers domains, which domains a framework makes
critical, and the status, exit code and confidence that follow. Doubles are reals.
*/
module Certification {
  import opened Text

  datatype Framework = General | SOC2 | ISO27001

  datatype Gate = Gate(name: string, status: string, detail: string, blocking: bool)
  datatype Evidence = Evidence(
    id: string, domain: string, status: string, executionBacked: bool, summary: string)
  datatype Definition = Definition(name: string, required: seq<string>, critical: bool)
  datatype Domain = Domain(
    name: string, status: string, coverage: real, evidenceCount: nat, critical: bool,
    findings: seq<string>, missing: seq<string>)

  // ---- Signals ----

  predicate Has(s: string, part: string) {
    Find(s, part, 0).Some?
  }

  function LowerChar(c: char): char {
    if 'A' <= c <= 'Z' then (c as int + 32) as char else c
  }

  function Lower(s: string): (r: string)
    ensures |r| == |s|
  {
    seq(|s|, i requires 0 <= i < |s| => LowerChar(s[i]))
  }

  predicate Counts(e: Evidence, domain: string) {
    e.domain == domain && (e.status == "pass" || e.status == "partial")
  }

  predicate Names(e: Evidence, signal: string) {
    Has(e.summary, signal) || Has(e.id, signal)
  }

  predicate NamesLoosely(e: Evidence, signal: string) {
    Has(Lower(e.summary), Lower(signal))
  }

  // A signal is found when counting evidence of the domain names it, loosely if need be.
  predicate Found(ev: seq<Evidence>, domain: string, signal: string) {
    exists i :: 0 <= i < |ev| && Counts(ev[i], domain) && (Names(ev[i], signal) || NamesLoosely(ev[i], signal))
  }

  function CountOf(ev: seq<Evidence>, domain: string): nat {
    if ev == [] then 0
    else CountOf(ev[..|ev| - 1], domain) + (if ev[|ev| - 1].domain == domain then 1 else 0)
  }

  function Met(ev: seq<Evidence>, domain: string, signals: seq<string>): (n: nat)
    ensures n <= |signals|
  {
    if signals == [] then 0
    else Met(ev, domain, signals[..|signals| - 1]) + (if Found(ev, domain, signals[|signals| - 1]) then 1 else 0)
  }

  function Missing(ev: seq<Evidence>, domain: string, signals: seq<string>): seq<string> {
    if signals == [] then []
    else
      var last := signals[|signals| - 1];
      Missing(ev, domain, signals[..|signals| - 1]) + (if Found(ev, domain, last) then [] else [last])
  }

  function Findings(ev: seq<Evidence>, domain: string, signals: seq<string>): seq<string> {
    if signals == [] then []
    else
      var last := signals[|signals| - 1];
      Findings(ev, domain, signals[..|signals| - 1]) + (if Found(ev, domain, last) then [last + ": covered"] else [])
  }

  // ---- Domains ----

  function Ratio(a: nat, b: nat): real
    requires b > 0
  {
    a as real / b as real
  }

  function Coverage(def: Definition, ev: seq<Evidence>): real {
    if def.required == [] then (if CountOf(ev, def.name) > 0 then 1.0 else 0.0)
    else Ratio(Met(ev, def.name, def.required), |def.required|)
  }

  function StatusOf(coverage: real, critical: bool): string {
    if coverage >= 1.0 then "verified"
    else if coverage >= 0.5 then "gaps"
    else if coverage == 0.0 && critical then "blocked"
    else "inconclusive"
  }

  function Evaluate(def: Definition, ev: seq<Evidence>): Domain {
    var coverage := Coverage(def, ev);
    Domain(def.name, StatusOf(coverage, def.critical), coverage, CountOf(ev, def.name), def.critical,
           Findings(ev, def.name, def.required), Missing(ev, def.name, def.required))
  }

  function EvaluateAll(defs: seq<Definition>, ev: seq<Evidence>): (r: seq<Domain>)
    ensures |r| == |defs| && forall i :: 0 <= i < |r| ==> r[i] == Evaluate(defs[i], ev)
  {
    seq(|defs|, i requires 0 <= i < |defs| => Evaluate(defs[i], ev))
  }

  // The two searches of the source: by name over all evidence, then loosely.
  method FindSignal(ev: seq<Evidence>, domain: string, signal: string, count: nat) returns (found: bool)
    requires count == CountOf(ev, domain)
    ensures found == Found(ev, domain, signal)
  {
    hide Has, Lower;
    var n := 0;
    while n < |ev|
      invariant n <= |ev|
      invariant forall i :: 0 <= i < n ==> !(Counts(ev[i], domain) && Names(ev[i], signal))
    {
      if ev[n].domain == domain && Names(ev[n], signal) && (ev[n].status == "pass" || ev[n].status == "partial") {
        return true;
      }
      n := n + 1;
    }
    if count > 0 {
      n := 0;
      while n < |ev|
        invariant n <= |ev|
        invariant forall i :: 0 <= i < n ==> !(Counts(ev[i], domain) && NamesLoosely(ev[i], signal))
      {
        if Counts(ev[n], domain) && NamesLoosely(ev[n], signal) {
          return true;
        }
        n := n + 1;
      }
    } else {
      NoneOfDomain(ev, domain);
    }
    found := false;
  }

  lemma {:induction false} NoneOfDomain(ev: seq<Evidence>, domain: string)
    ensures CountOf(ev, domain) == 0 <==> forall i :: 0 <= i < |ev| ==> ev[i].domain != domain
    decreases |ev|
  {
    if ev != [] {
      NoneOfDomain(ev[..|ev| - 1], domain);
      assert forall i :: 0 <= i < |ev| - 1 ==> ev[..|ev| - 1][i] == ev[i];
    }
  }

  method EvaluateDomains(defs: seq<Definition>, ev: seq<Evidence>) returns (results: seq<Domain>)
    ensures results == EvaluateAll(defs, ev)
  {
    hide Found;
    results := [];
    for d := 0 to |defs|
      invariant |results| == d && forall i :: 0 <= i < d ==> results[i] == Evaluate(defs[i], ev)
    {
      var def := defs[d];
      var count := 0;
      for n := 0 to |ev|
        invariant count == CountOf(ev[..n], def.name)
      {
        assert ev[..n + 1][..n] == ev[..n];
        if ev[n].domain == def.name {
          count := count + 1;
        }
      }
      assert ev[..|ev|] == ev;
      var met, findings, missing := 0, [], [];
      var req := def.required;
      for n := 0 to |req|
        invariant met == Met(ev, def.name, req[..n])
        invariant findings == Findings(ev, def.name, req[..n]) && missing == Missing(ev, def.name, req[..n])
      {
        assert req[..n + 1][..n] == req[..n];
        var found := FindSignal(ev, def.name, req[n], count);
        if found {
          met := met + 1;
          findings := findings + [req[n] + ": covered"];
        } else {
          missing := missing + [req[n]];
        }
      }
      assert req[..|req|] == req;
      var coverage := if req == [] then (if count > 0 then 1.0 else 0.0) else Ratio(met, |req|);
      var status := "inconclusive";
      if coverage >= 1.0 {
        status := "verified";
      } else if coverage >= 0.5 {
        status := "gaps";
      } else if coverage == 0.0 && def.critical {
        status := "blocked";
      }
      results := results + [Domain(def.name, status, coverage, count, def.critical, findings, missing)];
    }
  }

  // ---- Frameworks ----

  predicate GeneralCritical(name: string) {
    name == "Secure Software Development Lifecycle" || name == "Application Security" ||
    name == "Software Quality Assurance" || name == "Documentation & Audit Evidence"
  }

  predicate Critical(f: Framework, name: string) {
    GeneralCritical(name) ||
    match f
    case General => false
    case SOC2 =>
      name == "Governance & Organizational Controls" || name == "Identity & Access Management" ||
      name == "Logging, Monitoring & Detection" || name == "Change Management" ||
      name == "Supply Chain & Third-Party Security"
    case ISO27001 =>
      name == "Governance & Organizational Controls" || name == "Vulnerability & Patch Management" ||
      name == "Incident Response" || name == "Business Continuity & Disaster Recovery" ||
      name == "Supply Chain & Third-Party Security"
  }

  // The overlay only ever adds criticality to what a definition says by itself.
  function Overlay(f: Framework, defs: seq<Definition>): (r: seq<Definition>)
    ensures |r| == |defs|
    ensures forall i :: 0 <= i < |r| ==> r[i] == defs[i].(critical := defs[i].critical || Critical(f, defs[i].name))
  {
    seq(|defs|, i requires 0 <= i < |defs| => defs[i].(critical := defs[i].critical || Critical(f, defs[i].name)))
  }

  method ApplyFrameworkOverlay(f: Framework, defs: seq<Definition>) returns (domains: seq<Definition>)
    ensures domains == Overlay(f, defs)
  {
    hide Critical;
    domains := defs;
    for n := 0 to |defs|
      invariant |domains| == |defs|
      invariant forall i :: 0 <= i < |defs| ==>
        domains[i] == if i < n then Overlay(f, defs)[i] else defs[i]
    {
      if Critical(f, domains[n].name) {
        domains := domains[n := domains[n].(critical := true)];
      }
    }
  }

  // ---- The verdict ----

  predicate GateBlocks(gates: seq<Gate>) {
    exists i :: 0 <= i < |gates| && gates[i].status == "fail" && gates[i].blocking
  }

  predicate DomainBlocks(domains: seq<Domain>) {
    exists i :: 0 <= i < |domains| && domains[i].critical && domains[i].status == "blocked"
  }

  function GatesWith(gates: seq<Gate>, status: string): (n: nat)
    ensures n <= |gates|
  {
    if gates == [] then 0
    else GatesWith(gates[..|gates| - 1], status) + (if gates[|gates| - 1].status == status then 1 else 0)
  }

  function DomainsWith(domains: seq<Domain>, status: string): (n: nat)
    ensures n <= |domains|
  {
    if domains == [] then 0
    else DomainsWith(domains[..|domains| - 1], status) + (if domains[|domains| - 1].status == status then 1 else 0)
  }

  function CoverageSum(domains: seq<Domain>, criticalOnly: bool): real {
    if domains == [] then 0.0
    else
      var last := domains[|domains| - 1];
      CoverageSum(domains[..|domains| - 1], criticalOnly) +
      (if !criticalOnly || last.critical then last.coverage else 0.0)
  }

  function CriticalCount(domains: seq<Domain>): (n: nat)
    ensures n <= |domains|
  {
    if domains == [] then 0
    else CriticalCount(domains[..|domains| - 1]) + (if domains[|domains| - 1].critical then 1 else 0)
  }

  // Missing controls of domains with gaps, each a major gap.
  function GapCount(domains: seq<Domain>): nat {
    if domains == [] then 0
    else
      var last := domains[|domains| - 1];
      GapCount(domains[..|domains| - 1]) + (if last.status == "gaps" then |last.missing| else 0)
  }

  function ExecutionBacked(ev: seq<Evidence>): (n: nat)
    ensures n <= |ev|
  {
    if ev == [] then 0
    else ExecutionBacked(ev[..|ev| - 1]) + (if ev[|ev| - 1].executionBacked then 1 else 0)
  }

  function Average(domains: seq<Domain>): real {
    if domains == [] then 0.0 else CoverageSum(domains, false) / |domains| as real
  }

  datatype Verdict = Verdict(status: string, exitCode: int, confidence: int)

  predicate Blocked(gates: seq<Gate>, domains: seq<Domain>) {
    GateBlocks(gates) || DomainBlocks(domains)
  }

  predicate Inconclusive(gates: seq<Gate>, domains: seq<Domain>, ev: seq<Evidence>) {
    GatesWith(gates, "skipped") > 2 || |ev| < 5 || DomainsWith(domains, "inconclusive") > |domains| / 2
  }

  function FinalStatus(gates: seq<Gate>, domains: seq<Domain>, ev: seq<Evidence>): string {
    if Blocked(gates, domains) then "BLOCKED"
    else if Inconclusive(gates, domains, ev) then "INCONCLUSIVE"
    else if Average(domains) > 0.75 && GapCount(domains) <= 3 then "READY"
    else "READY WITH GAPS"
  }

  function ExitCode(status: string): int {
    if status == "BLOCKED" || status == "INCONCLUSIVE" then 1 else 0
  }

  // Gate pass (40), domain coverage (30), execution-backed evidence (20), critical coverage (10).
  function Score(gates: seq<Gate>, domains: seq<Domain>, ev: seq<Evidence>): real {
    var total := |gates| - GatesWith(gates, "skipped");
    (if total > 0 then Ratio(GatesWith(gates, "pass"), total) * 40.0 else 0.0)
    + Average(domains) * 30.0
    + (if |ev| > 0 then Ratio(ExecutionBacked(ev), |ev|) * 20.0 else 0.0)
    + (if CriticalCount(domains) > 0
       then CoverageSum(domains, true) / CriticalCount(domains) as real * 10.0 else 10.0)
  }

  // static_cast<int>: toward zero.
  function Truncate(x: real): int {
    if x >= 0.0 then x.Floor else -((-x).Floor)
  }

  function Finalize(gates: seq<Gate>, domains: seq<Domain>, ev: seq<Evidence>): Verdict {
    var status := FinalStatus(gates, domains, ev);
    var confidence := Truncate(Score(gates, domains, ev));
    Verdict(status, ExitCode(status), if confidence > 100 then 100 else confidence)
  }

  function Certify(f: Framework, defs: seq<Definition>, gates: seq<Gate>, ev: seq<Evidence>): Verdict {
    Finalize(gates, EvaluateAll(Overlay(f, defs), ev), ev)
  }

  // The loops of finalize_result, over gates, domains and evidence.
  method TallyGates(gates: seq<Gate>) returns (fails: bool, pass: nat, total: int, skipped: nat)
    ensures fails == GateBlocks(gates) && pass == GatesWith(gates, "pass")
    ensures skipped == GatesWith(gates, "skipped") && total == |gates| - skipped
  {
    fails, pass, total, skipped := false, 0, 0, 0;
    for n := 0 to |gates|
      invariant skipped == GatesWith(gates[..n], "skipped") && total == n - skipped
      invariant pass == GatesWith(gates[..n], "pass")
      invariant fails == GateBlocks(gates[..n])
    {
      var g := gates[n];
      assert gates[..n + 1][..n] == gates[..n] && gates[..n + 1][n] == g;
      OneMoreGate(gates, n);
      if g.status == "skipped" {
        skipped := skipped + 1;
      } else {
        total := total + 1;
        if g.status == "pass" {
          pass := pass + 1;
        }
        if g.status == "fail" && g.blocking {
          fails := true;
        }
      }
    }
    assert gates[..|gates|] == gates;
  }

  method TallyDomains(domains: seq<Domain>)
    returns (blocked: bool, inconclusive: nat, gaps: nat, sum: real, criticalSum: real, criticalCount: nat)
    ensures blocked == DomainBlocks(domains) && inconclusive == DomainsWith(domains, "inconclusive")
    ensures gaps == GapCount(domains) && criticalCount == CriticalCount(domains)
    ensures sum == CoverageSum(domains, false) && criticalSum == CoverageSum(domains, true)
  {
    blocked, inconclusive, gaps, sum, criticalSum, criticalCount := false, 0, 0, 0.0, 0.0, 0;
    for n := 0 to |domains|
      invariant blocked == DomainBlocks(domains[..n])
      invariant inconclusive == DomainsWith(domains[..n], "inconclusive") && gaps == GapCount(domains[..n])
      invariant sum == CoverageSum(domains[..n], false) && criticalSum == CoverageSum(domains[..n], true)
      invariant criticalCount == CriticalCount(domains[..n])
    {
      var d := domains[n];
      assert domains[..n + 1][..n] == domains[..n] && domains[..n + 1][n] == d;
      OneMoreDomain(domains, n);
      sum := sum + d.coverage;
      if d.critical {
        criticalSum := criticalSum + d.coverage;
        criticalCount := criticalCount + 1;
        if d.status == "blocked" {
          blocked := true;
        }
      }
      if d.status == "inconclusive" {
        inconclusive := inconclusive + 1;
      }
      if d.status == "gaps" {
        gaps := gaps + |d.missing|;
      }
    }
    assert domains[..|domains|] == domains;
  }

  method TallyEvidence(ev: seq<Evidence>) returns (backed: nat)
    ensures backed == ExecutionBacked(ev)
  {
    backed := 0;
    for n := 0 to |ev|
      invariant backed == ExecutionBacked(ev[..n])
    {
      assert ev[..n + 1][..n] == ev[..n];
      if ev[n].executionBacked {
        backed := backed + 1;
      }
    }
    assert ev[..|ev|] == ev;
  }

  method FinalizeResult(gates: seq<Gate>, domains: seq<Domain>, ev: seq<Evidence>) returns (v: Verdict)
    ensures v == Finalize(gates, domains, ev)
  {
    hide GatesWith, DomainsWith, GapCount, CoverageSum, CriticalCount, ExecutionBacked, Truncate, Ratio;
    hide GateBlocks, DomainBlocks;
    var gateFail, pass, total, skipped := TallyGates(gates);
    var domainBlocked, inconclusive, gaps, sum, criticalSum, criticalCount := TallyDomains(domains);
    var average := if |domains| > 0 then sum / |domains| as real else 0.0;
    var backed := TallyEvidence(ev);
    var status;
    if gateFail || domainBlocked {
      status := "BLOCKED";
    } else if skipped > 2 || |ev| < 5 || inconclusive > |domains| / 2 {
      status := "INCONCLUSIVE";
    } else if average > 0.75 && gaps <= 3 {
      status := "READY";
    } else {
      status := "READY WITH GAPS";
    }
    var score := (if total > 0 then Ratio(pass, total) * 40.0 else 0.0) + average * 30.0
      + (if |ev| > 0 then Ratio(backed, |ev|) * 20.0 else 0.0)
      + (if criticalCount > 0 then criticalSum / criticalCount as real * 10.0 else 10.0);
    var confidence := Truncate(score);
    v := Verdict(status, ExitCode(status), if confidence > 100 then 100 else confidence);
  }

  lemma OneMoreGate(gates: seq<Gate>, n: nat)
    requires n < |gates|
    ensures GateBlocks(gates[..n + 1]) <==>
            GateBlocks(gates[..n]) || (gates[n].status == "fail" && gates[n].blocking)
  {
    assert forall i :: 0 <= i < n ==> gates[..n + 1][i] == gates[..n][i];
    assert gates[..n + 1][n] == gates[n];
  }

  lemma OneMoreDomain(domains: seq<Domain>, n: nat)
    requires n < |domains|
    ensures DomainBlocks(domains[..n + 1]) <==>
            DomainBlocks(domains[..n]) || (domains[n].critical && domains[n].status == "blocked")
  {
    assert forall i :: 0 <= i < n ==> domains[..n + 1][i] == domains[..n][i];
    assert domains[..n + 1][n] == domains[n];
  }

  // ---- More evidence never hurts the exit code ----

  // Everything in one list of evidence is in the other, which is no shorter.
  predicate Extends(more: seq<Evidence>, ev: seq<Evidence>) {
    |ev| <= |more| && forall i :: 0 <= i < |ev| ==> ev[i] in more
  }

  lemma FoundGrows(ev: seq<Evidence>, more: seq<Evidence>, domain: string, signal: string)
    requires Extends(more, ev) && Found(ev, domain, signal)
    ensures Found(more, domain, signal)
  {
    hide Names, NamesLoosely;
    var i :| 0 <= i < |ev| && Counts(ev[i], domain) && (Names(ev[i], signal) || NamesLoosely(ev[i], signal));
    var j :| 0 <= j < |more| && more[j] == ev[i];
  }

  lemma {:induction false} MetGrows(ev: seq<Evidence>, more: seq<Evidence>, domain: string, signals: seq<string>)
    requires forall s :: s in signals && Found(ev, domain, s) ==> Found(more, domain, s)
    ensures Met(ev, domain, signals) <= Met(more, domain, signals)
    decreases |signals|
  {
    hide Found;
    if signals != [] {
      var earlier := signals[..|signals| - 1];
      assert forall s :: s in earlier ==> s in signals;
      MetGrows(ev, more, domain, earlier);
    }
  }

  // Where no signal is lost and no domain loses all its evidence, no coverage falls.
  lemma CoverageFollows(def: Definition, ev: seq<Evidence>, more: seq<Evidence>)
    requires forall s :: s in def.required && Found(ev, def.name, s) ==> Found(more, def.name, s)
    requires def.required == [] && CountOf(ev, def.name) > 0 ==> CountOf(more, def.name) > 0
    ensures 0.0 <= Coverage(def, ev) <= Coverage(def, more) <= 1.0
  {
    hide Found;
    if def.required != [] {
      MetGrows(ev, more, def.name, def.required);
      RatioGrows(Met(ev, def.name, def.required), Met(more, def.name, def.required), |def.required|);
    }
  }

  lemma RatioGrows(a: nat, b: nat, n: nat)
    requires a <= b <= n && n > 0
    ensures 0.0 <= Ratio(a, n) <= Ratio(b, n) <= 1.0
  {
    var m := n as real;
    assert Ratio(n, n) == 1.0;
    assert a as real <= b as real <= m;
    DivGrows(0.0, a as real, m);
    DivGrows(a as real, b as real, m);
    DivGrows(b as real, m, m);
  }

  lemma DivGrows(x: real, y: real, m: real)
    requires m > 0.0 && x <= y
    ensures x / m <= y / m
  {
  }

  // Adding evidence never lowers the coverage of any domain.
  lemma CoverageGrows(def: Definition, ev: seq<Evidence>, more: seq<Evidence>)
    requires Extends(more, ev)
    ensures 0.0 <= Coverage(def, ev) <= Coverage(def, more) <= 1.0
  {
    forall s | s in def.required && Found(ev, def.name, s) ensures Found(more, def.name, s) {
      FoundGrows(ev, more, def.name, s);
    }
    NoneOfDomain(ev, def.name);
    NoneOfDomain(more, def.name);
    CoverageFollows(def, ev, more);
  }

  lemma {:induction false} InconclusiveShrinks(a: seq<Domain>, b: seq<Domain>)
    requires |a| == |b|
    requires forall i :: 0 <= i < |a| ==> (b[i].status == "inconclusive" ==> a[i].status == "inconclusive")
    ensures DomainsWith(b, "inconclusive") <= DomainsWith(a, "inconclusive")
    decreases |a|
  {
    if a != [] {
      InconclusiveShrinks(a[..|a| - 1], b[..|b| - 1]);
    }
  }

  // A domain that did not block keeps or improves its standing.
  lemma StandingGrows(def: Definition, ev: seq<Evidence>, more: seq<Evidence>)
    requires 0.0 <= Coverage(def, ev) <= Coverage(def, more)
    requires !(def.critical && Evaluate(def, ev).status == "blocked")
    ensures !(def.critical && Evaluate(def, more).status == "blocked")
    ensures Evaluate(def, more).status == "inconclusive" ==> Evaluate(def, ev).status == "inconclusive"
  {
    hide Coverage, Missing, Findings, CountOf;
  }

  predicate CoversAsMuch(defs: seq<Definition>, ev: seq<Evidence>, more: seq<Evidence>) {
    forall i :: 0 <= i < |defs| ==> 0.0 <= Coverage(defs[i], ev) <= Coverage(defs[i], more)
  }

  // With gates fixed and enough evidence, as much coverage never turns exit code 0 into 1.
  lemma CoverageDecides(defs: seq<Definition>, gates: seq<Gate>, ev: seq<Evidence>, more: seq<Evidence>)
    requires CoversAsMuch(defs, ev, more) && |more| >= 5
    requires Finalize(gates, EvaluateAll(defs, ev), ev).exitCode == 0
    ensures Finalize(gates, EvaluateAll(defs, more), more).exitCode == 0
  {
    hide Score, Evaluate, Average, GapCount, Coverage;
    var a, b := EvaluateAll(defs, ev), EvaluateAll(defs, more);
    forall i | 0 <= i < |defs|
      ensures !(b[i].critical && b[i].status == "blocked")
      ensures b[i].status == "inconclusive" ==> a[i].status == "inconclusive"
    {
      assert !(a[i].critical && a[i].status == "blocked");
      CriticalKept(defs[i], ev);
      CriticalKept(defs[i], more);
      StandingGrows(defs[i], ev, more);
    }
    InconclusiveShrinks(a, b);
  }

  // So more evidence never does.
  lemma EvidenceNeverFails(defs: seq<Definition>, gates: seq<Gate>, ev: seq<Evidence>, more: seq<Evidence>)
    requires Extends(more, ev) && Finalize(gates, EvaluateAll(defs, ev), ev).exitCode == 0
    ensures Finalize(gates, EvaluateAll(defs, more), more).exitCode == 0
  {
    hide Score, Evaluate, Average, GapCount, Coverage, EvaluateAll;
    forall i | 0 <= i < |defs| ensures 0.0 <= Coverage(defs[i], ev) <= Coverage(defs[i], more) {
      CoverageGrows(defs[i], ev, more);
    }
    CoverageDecides(defs, gates, ev, more);
  }

  lemma {:induction false} CoverageSumGrows(a: seq<Domain>, b: seq<Domain>)
    requires |a| == |b| && forall i :: 0 <= i < |a| ==> a[i].coverage <= b[i].coverage
    ensures CoverageSum(a, false) <= CoverageSum(b, false)
    decreases |a|
  {
    if a != [] {
      CoverageSumGrows(a[..|a| - 1], b[..|b| - 1]);
    }
  }

  // A run that was READY stays so exactly while its major gaps number three at most: more
  // evidence can only cost it READY by lifting domains from inconclusive to gaps.
  lemma ReadyKeptExactly(defs: seq<Definition>, gates: seq<Gate>, ev: seq<Evidence>, more: seq<Evidence>)
    requires Extends(more, ev) && Finalize(gates, EvaluateAll(defs, ev), ev).status == "READY"
    ensures Finalize(gates, EvaluateAll(defs, more), more).status ==
            if GapCount(EvaluateAll(defs, more)) <= 3 then "READY" else "READY WITH GAPS"
  {
    hide Score, Evaluate, GapCount, Inconclusive, Blocked, EvaluateAll, CoverageSum;
    var a, b := EvaluateAll(defs, ev), EvaluateAll(defs, more);
    EvidenceNeverFails(defs, gates, ev, more);
    forall i | 0 <= i < |defs| ensures a[i].coverage <= b[i].coverage {
      CoverageGrows(defs[i], ev, more);
      CoverageKept(defs[i], ev);
      CoverageKept(defs[i], more);
    }
    CoverageSumGrows(a, b);
    if defs != [] {
      DivGrows(CoverageSum(a, false), CoverageSum(b, false), |defs| as real);
    }
  }

  lemma CoverageKept(def: Definition, ev: seq<Evidence>)
    ensures Evaluate(def, ev).coverage == Coverage(def, ev)
  {
    hide Coverage;
  }

  lemma CriticalKept(def: Definition, ev: seq<Evidence>)
    ensures Evaluate(def, ev).critical == def.critical
  {
  }

  // ---- Stricter frameworks ----

  lemma OverlayOrder(f: Framework, defs: seq<Definition>, i: nat)
    requires i < |defs|
    ensures Overlay(General, defs)[i].critical ==> Overlay(f, defs)[i].critical
  {
  }

  lemma SameButCritical(d: Definition, critical: bool, ev: seq<Evidence>)
    ensures var a, b := Evaluate(d, ev), Evaluate(d.(critical := critical), ev);
            && b == a.(critical := critical, status := b.status)
            && (a.status != b.status ==> a.coverage == b.coverage == 0.0 && d.critical != critical)
            && (a.status == "blocked" ==> d.critical)
            && (a.status == "blocked" && critical ==> b.status == "blocked")
            && (a.status != b.status && critical ==> b.status == "blocked")
  {
  }

  lemma {:induction false} SameVerdictInputs(a: seq<Domain>, b: seq<Domain>)
    requires |a| == |b|
    requires forall i :: 0 <= i < |a| ==> a[i].status == b[i].status && a[i].coverage == b[i].coverage
                                          && a[i].missing == b[i].missing
    ensures DomainsWith(a, "inconclusive") == DomainsWith(b, "inconclusive")
    ensures CoverageSum(a, false) == CoverageSum(b, false) && GapCount(a) == GapCount(b)
    decreases |a|
  {
    if a != [] {
      SameVerdictInputs(a[..|a| - 1], b[..|b| - 1]);
    }
  }

  // On the same gates and evidence: what blocks General blocks every framework, and a framework
  // that does not block decides exactly as General does.
  lemma FrameworksAgreeUnlessBlocked(f: Framework, defs: seq<Definition>, gates: seq<Gate>, ev: seq<Evidence>)
    ensures Certify(General, defs, gates, ev).status == "BLOCKED" ==>
              Certify(f, defs, gates, ev).status == "BLOCKED"
    ensures Certify(f, defs, gates, ev).status != "BLOCKED" ==>
              && Certify(f, defs, gates, ev).status == Certify(General, defs, gates, ev).status
              && Certify(f, defs, gates, ev).exitCode == Certify(General, defs, gates, ev).exitCode
  {
    hide Score, Evaluate, Critical, GatesWith;
    var a, b := EvaluateAll(Overlay(General, defs), ev), EvaluateAll(Overlay(f, defs), ev);
    forall i | 0 <= i < |defs|
      ensures a[i].critical && a[i].status == "blocked" ==> b[i].critical && b[i].status == "blocked"
      ensures !(b[i].critical && b[i].status == "blocked") ==> a[i].status == b[i].status
      ensures a[i].coverage == b[i].coverage && a[i].missing == b[i].missing
    {
      OverlayOrder(f, defs, i);
      var d := Overlay(General, defs)[i];
      CriticalKept(d, ev);
      SameButCritical(d, Overlay(f, defs)[i].critical, ev);
      assert Overlay(f, defs)[i] == d.(critical := Overlay(f, defs)[i].critical);
    }
    if !DomainBlocks(b) {
      SameVerdictInputs(a, b);
    }
  }

  // ---- Confidence ----

  lemma {:induction false} CoverageSumBounds(domains: seq<Domain>, criticalOnly: bool)
    requires forall i :: 0 <= i < |domains| ==> 0.0 <= domains[i].coverage <= 1.0
    ensures 0.0 <= CoverageSum(domains, criticalOnly)
    ensures CoverageSum(domains, criticalOnly) <= (if criticalOnly then CriticalCount(domains) else |domains|) as real
    decreases |domains|
  {
    if domains != [] {
      CoverageSumBounds(domains[..|domains| - 1], criticalOnly);
    }
  }

  lemma {:induction false} GateCounts(gates: seq<Gate>)
    ensures GatesWith(gates, "pass") + GatesWith(gates, "skipped") <= |gates|
    decreases |gates|
  {
    if gates != [] {
      GateCounts(gates[..|gates| - 1]);
    }
  }

  lemma UnitShare(x: real, n: nat)
    requires n > 0 && 0.0 <= x <= n as real
    ensures 0.0 <= x / n as real <= 1.0
  {
    DivGrows(0.0, x, n as real);
    DivGrows(x, n as real, n as real);
  }

  // Confidence lies between 0 and 100 in every run, so its clamp never acts.
  lemma ConfidenceInRange(f: Framework, defs: seq<Definition>, gates: seq<Gate>, ev: seq<Evidence>)
    ensures 0 <= Certify(f, defs, gates, ev).confidence <= 100
    ensures Certify(f, defs, gates, ev).confidence == Score(gates, EvaluateAll(Overlay(f, defs), ev), ev).Floor
  {
    hide Evaluate, Overlay, GatesWith, FinalStatus;
    var domains := EvaluateAll(Overlay(f, defs), ev);
    forall i | 0 <= i < |domains|
      ensures 0.0 <= domains[i].coverage <= 1.0
    {
      CoverageInUnit(Overlay(f, defs)[i], ev);
    }
    CoverageSumBounds(domains, false);
    CoverageSumBounds(domains, true);
    GateCounts(gates);
    var total := |gates| - GatesWith(gates, "skipped");
    if total > 0 {
      RatioGrows(GatesWith(gates, "pass"), total, total);
    }
    if |ev| > 0 {
      RatioGrows(ExecutionBacked(ev), |ev|, |ev|);
    }
    if |domains| > 0 {
      UnitShare(CoverageSum(domains, false), |domains|);
    }
    if CriticalCount(domains) > 0 {
      UnitShare(CoverageSum(domains, true), CriticalCount(domains));
    }
  }

  lemma CoverageInUnit(def: Definition, ev: seq<Evidence>)
    ensures 0.0 <= Evaluate(def, ev).coverage <= 1.0
  {
    CoverageGrows(def, ev, ev);
  }
}
