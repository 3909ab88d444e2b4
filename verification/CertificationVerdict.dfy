/**
The verdict in terms of what a reader counts: how many gates, domains and controls, how much
coverage, and what each of them adds to the confidence.
*/
module CertificationVerdict {
  import opened Text
  import opened Certification

  // ---- Counting ----

  // The places of a sequence where something holds.
  function Where<T>(s: seq<T>, holds: T -> bool): set<nat> {
    set i: nat | i < |s| && holds(s[i])
  }

  lemma OneMorePlace<T>(s: seq<T>, holds: T -> bool)
    requires s != []
    ensures var n := |s| - 1;
            |Where(s, holds)| == |Where(s[..n], holds)| + if holds(s[n]) then 1 else 0
  {
    var n := |s| - 1;
    var before := Where(s[..n], holds);
    if holds(s[n]) {
      assert Where(s, holds) == before + {n};
    } else {
      assert Where(s, holds) == before;
    }
  }

  predicate IsSkipped(g: Gate) {
    g.status == "skipped"
  }

  predicate IsUnclear(d: Domain) {
    d.status == "inconclusive"
  }

  // ---- What a domain's evidence comes to ----

  lemma LettersLowered(c: char, k: nat)
    requires k < 26
    ensures LowerChar("ABCDEFGHIJKLMNOPQRSTUVWXYZ"[k]) == "abcdefghijklmnopqrstuvwxyz"[k]
    ensures c !in "ABCDEFGHIJKLMNOPQRSTUVWXYZ" ==> LowerChar(c) == c
  {
    var upper := "ABCDEFGHIJKLMNOPQRSTUVWXYZ";
    if 'A' <= c <= 'Z' {
      assert upper[c as int - 'A' as int] == c;
    }
  }

  // A signal is met by evidence of the domain that passed, wholly or in part, and has the signal
  // in its summary or id, or in its summary whatever the letters' case.
  lemma FoundExactly(ev: seq<Evidence>, domain: string, signal: string)
    ensures Found(ev, domain, signal) <==>
            exists e :: e in ev && e.domain == domain && e.status in {"pass", "partial"} &&
              (PartOf(signal, e.summary) || PartOf(signal, e.id) || PartOf(Lower(signal), Lower(e.summary)))
  {
    forall s: string, part: string ensures Has(s, part) <==> PartOf(part, s) {
      FindsParts(s, part);
    }
    hide Has, PartOf, Lower;
    if i :| 0 <= i < |ev| && Counts(ev[i], domain) && (Names(ev[i], signal) || NamesLoosely(ev[i], signal)) {
      assert ev[i] in ev;
    }
  }

  lemma {:induction false} MetAreCounted(ev: seq<Evidence>, domain: string, signals: seq<string>, met: string -> bool)
    requires forall s :: met(s) <==> Found(ev, domain, s)
    ensures Met(ev, domain, signals) == |Where(signals, met)|
    decreases |signals|
  {
    hide Found, Where;
    if signals == [] {
      NoPlaces(signals, met);
    } else {
      OneMorePlace(signals, met);
      MetAreCounted(ev, domain, signals[..|signals| - 1], met);
    }
  }

  lemma {:induction false} MissingExactly(ev: seq<Evidence>, domain: string, signals: seq<string>)
    ensures var missing, findings := Missing(ev, domain, signals), Findings(ev, domain, signals);
            && |missing| == |signals| - Met(ev, domain, signals) && |findings| == Met(ev, domain, signals)
            && (forall s :: s in missing <==> s in signals && !Found(ev, domain, s))
            && (forall s :: s in findings <==> exists t :: t in signals && Found(ev, domain, t) && s == t + ": covered")
    decreases |signals|
  {
    hide Found;
    if signals != [] {
      var n := |signals| - 1;
      MissingExactly(ev, domain, signals[..n]);
      assert signals == signals[..n] + [signals[n]];
    }
  }

  lemma {:induction false} EvidenceIsCounted(ev: seq<Evidence>, domain: string, about: Evidence -> bool)
    requires forall e :: about(e) <==> e.domain == domain
    ensures CountOf(ev, domain) == |Where(ev, about)|
    decreases |ev|
  {
    hide Where;
    if ev == [] {
      NoPlaces(ev, about);
    } else {
      OneMorePlace(ev, about);
      EvidenceIsCounted(ev[..|ev| - 1], domain, about);
    }
  }

  lemma NoPlaces<T>(s: seq<T>, holds: T -> bool)
    requires s == []
    ensures Where(s, holds) == {}
  {
  }

  // Where a domain stands: all its signals met, at least half, none of a critical one's, or
  // something in between. Without signals any evidence at all is enough.
  lemma StandingExactly(def: Definition, ev: seq<Evidence>, met: string -> bool, about: Evidence -> bool)
    requires (forall s :: met(s) <==> Found(ev, def.name, s)) && forall e :: about(e) <==> e.domain == def.name
    ensures var d := Evaluate(def, ev);
            var n, m := |def.required|, |Where(def.required, met)|;
            var some := exists e :: e in ev && e.domain == def.name;
            && (d.status == "verified" <==> if n == 0 then some else m == n)
            && (d.status == "gaps" <==> n > 0 && m < n && 2 * m >= n)
            && (d.status == "blocked" <==> def.critical && if n == 0 then !some else m == 0)
            && d.coverage * n as real == m as real && (n == 0 ==> d.coverage == if some then 1.0 else 0.0)
            && d.name == def.name && d.critical == def.critical && d.evidenceCount == |Where(ev, about)|
            && (d.status == "inconclusive" || d.status == "verified" || d.status == "gaps" || d.status == "blocked")
  {
    hide Found, Met, Missing, Findings, CountOf, Where;
    MetAreCounted(ev, def.name, def.required, met);
    NoneOfDomain(ev, def.name);
    EvidenceIsCounted(ev, def.name, about);
    assert (exists e :: e in ev && e.domain == def.name) <==> CountOf(ev, def.name) > 0;
    if def.required != [] {
      HalfMet(Met(ev, def.name, def.required), |def.required|);
    }
    assert |"verified"| == 8 && |"gaps"| == 4 && |"blocked"| == 7 && |"inconclusive"| == 12;
  }

  lemma HalfMet(a: nat, n: nat)
    requires n > 0 && a <= n
    ensures Ratio(a, n) * n as real == a as real
    ensures (Ratio(a, n) >= 1.0 <==> a == n) && (Ratio(a, n) >= 0.5 <==> 2 * a >= n) && (Ratio(a, n) == 0.0 <==> a == 0)
  {
    AtLeast(a as real, n as real, 1.0);
    AtLeast(a as real, n as real, 0.5);
    AtLeast(-(a as real), n as real, 0.0);
    assert -(a as real) / n as real == -Ratio(a, n);
  }

  lemma AtLeast(x: real, n: real, limit: real)
    requires n > 0.0
    ensures x / n * n == x && (x / n >= limit <==> x >= limit * n)
  {
    var q := x / n;
    assert q * n == x;
    if q >= limit {
      assert (q - limit) * n >= 0.0;
    } else {
      assert (limit - q) * n > 0.0;
    }
  }

  lemma {:induction false} SkippedAreCounted(gates: seq<Gate>)
    ensures GatesWith(gates, "skipped") == |Where(gates, IsSkipped)|
    decreases |gates|
  {
    hide Where;
    if gates == [] {
      NoPlaces(gates, IsSkipped);
    } else {
      OneMorePlace(gates, IsSkipped);
      SkippedAreCounted(gates[..|gates| - 1]);
    }
  }

  lemma {:induction false} UnclearAreCounted(domains: seq<Domain>)
    ensures DomainsWith(domains, "inconclusive") == |Where(domains, IsUnclear)|
    decreases |domains|
  {
    hide Where;
    if domains == [] {
      NoPlaces(domains, IsUnclear);
    } else {
      OneMorePlace(domains, IsUnclear);
      UnclearAreCounted(domains[..|domains| - 1]);
    }
  }

  // The controls missing in domains with gaps, one after the other: the major gaps of a run.
  function MajorGaps(domains: seq<Domain>): seq<string> {
    if domains == [] then [] else OwnGaps(domains[0]) + MajorGaps(domains[1..])
  }

  function OwnGaps(d: Domain): seq<string> {
    if d.status == "gaps" then d.missing else []
  }

  lemma GapsUnfold(domains: seq<Domain>)
    requires domains != []
    ensures MajorGaps(domains) == OwnGaps(domains[0]) + MajorGaps(domains[1..])
  {
  }

  lemma {:induction false} GapsAppend(domains: seq<Domain>, d: Domain)
    ensures MajorGaps(domains + [d]) == MajorGaps(domains) + OwnGaps(d)
    decreases |domains|
  {
    if domains == [] {
      assert domains + [d] == [d] && [d][1..] == [];
    } else {
      var rest := domains[1..];
      assert (domains + [d])[1..] == rest + [d];
      GapsAppend(rest, d);
      hide MajorGaps;
      GapsUnfold(domains);
      GapsUnfold(domains + [d]);
      Assoc(OwnGaps(domains[0]), MajorGaps(rest), OwnGaps(d));
    }
  }

  lemma {:induction false} GapsAreCounted(domains: seq<Domain>)
    ensures GapCount(domains) == |MajorGaps(domains)|
    decreases |domains|
  {
    if domains != [] {
      var n := |domains| - 1;
      GapsAreCounted(domains[..n]);
      assert domains == domains[..n] + [domains[n]];
      GapsAppend(domains[..n], domains[n]);
    }
  }

  // ---- The verdict ----

  // The four outcomes for every input. READY takes an average coverage above three quarters.
  lemma VerdictExactly(gates: seq<Gate>, domains: seq<Domain>, ev: seq<Evidence>)
    ensures var v := Finalize(gates, domains, ev);
            var blocked := (exists g :: g in gates && g.blocking && g.status == "fail") ||
                           (exists d :: d in domains && d.critical && d.status == "blocked");
            var unclear := |Where(gates, IsSkipped)| >= 3 || |ev| <= 4 || 2 * |Where(domains, IsUnclear)| > |domains|;
            var covered := 4.0 * CoverageSum(domains, false) > 3.0 * |domains| as real;
            && (v.status == "BLOCKED" <==> blocked)
            && (v.status == "INCONCLUSIVE" <==> !blocked && unclear)
            && (v.status == "READY" <==> !blocked && !unclear && covered && |MajorGaps(domains)| <= 3)
            && (v.status == "READY WITH GAPS" <==>
                !blocked && !unclear && !(covered && |MajorGaps(domains)| <= 3))
            && v.exitCode == if blocked || unclear then 1 else 0
  {
    hide Score, Blocked, Inconclusive, GapCount, CoverageSum, Average, Where, MajorGaps;
    BlockedExactly(gates, domains);
    UnclearExactly(gates, domains, ev);
    GapsAreCounted(domains);
    AverageAbove(domains);
    FourStatuses();
  }

  lemma FourStatuses()
    ensures "BLOCKED" != "INCONCLUSIVE" && "BLOCKED" != "READY" && "BLOCKED" != "READY WITH GAPS"
    ensures "INCONCLUSIVE" != "READY" && "INCONCLUSIVE" != "READY WITH GAPS" && "READY" != "READY WITH GAPS"
  {
    assert |"BLOCKED"| == 7 && |"INCONCLUSIVE"| == 12 && |"READY"| == 5 && |"READY WITH GAPS"| == 15;
  }

  lemma BlockedExactly(gates: seq<Gate>, domains: seq<Domain>)
    ensures Blocked(gates, domains) <==>
            (exists g :: g in gates && g.blocking && g.status == "fail") ||
            (exists d :: d in domains && d.critical && d.status == "blocked")
  {
    if i :| 0 <= i < |gates| && gates[i].status == "fail" && gates[i].blocking {
      assert gates[i] in gates;
    }
    if i :| 0 <= i < |domains| && domains[i].critical && domains[i].status == "blocked" {
      assert domains[i] in domains;
    }
  }

  lemma UnclearExactly(gates: seq<Gate>, domains: seq<Domain>, ev: seq<Evidence>)
    ensures Inconclusive(gates, domains, ev) <==>
            |Where(gates, IsSkipped)| >= 3 || |ev| <= 4 || 2 * |Where(domains, IsUnclear)| > |domains|
  {
    hide GatesWith, DomainsWith, Where;
    SkippedAreCounted(gates);
    UnclearAreCounted(domains);
  }

  lemma AverageAbove(domains: seq<Domain>)
    ensures Average(domains) > 0.75 <==> 4.0 * CoverageSum(domains, false) > 3.0 * |domains| as real
  {
    if domains != [] {
      Above(CoverageSum(domains, false), |domains| as real);
    }
  }

  lemma Above(x: real, n: real)
    requires n > 0.0
    ensures x / n > 0.75 <==> 4.0 * x > 3.0 * n
  {
    var q := x / n;
    assert q * n == x;
    if q > 0.75 {
      assert (q - 0.75) * n > 0.0;
    } else {
      assert (0.75 - q) * n >= 0.0;
    }
  }

  // ---- Either side of each limit ----

  const COVERED: Domain := Domain("covered", "verified", 1.0, 1, false, [], [])
  const UNCLEAR: Domain := Domain("unclear", "inconclusive", 0.0, 0, false, [], [])
  const SKIPPED: Gate := Gate("gate", "skipped", "", true)

  // A domain half covered with a number of controls missing.
  function Open(controls: nat): Domain {
    Domain("open", "gaps", 0.5, 1, false, [], seq(controls, _ => "control"))
  }

  function Mix(covered: nat, unclear: nat): seq<Domain> {
    seq(covered, _ => COVERED) + seq(unclear, _ => UNCLEAR)
  }

  lemma {:induction false} AllSkipped(n: nat)
    ensures GatesWith(seq(n, _ => SKIPPED), "skipped") == n
  {
    if n > 0 {
      AllSkipped(n - 1);
      assert seq(n, _ => SKIPPED)[..n - 1] == seq(n - 1, _ => SKIPPED);
    }
  }

  lemma {:induction false} MixTotals(covered: nat, unclear: nat)
    ensures var ds := Mix(covered, unclear);
            && CoverageSum(ds, false) == covered as real && GapCount(ds) == 0
            && DomainsWith(ds, "inconclusive") == unclear
    decreases covered + unclear
  {
    var ds := Mix(covered, unclear);
    if unclear > 0 {
      MixTotals(covered, unclear - 1);
      assert ds[..|ds| - 1] == Mix(covered, unclear - 1) && ds[|ds| - 1] == UNCLEAR;
    } else if covered > 0 {
      MixTotals(covered - 1, 0);
      assert ds[..|ds| - 1] == Mix(covered - 1, 0) && ds[|ds| - 1] == COVERED;
    }
  }

  // How many skipped gates, items of evidence, unclear domains and open controls a run bears.
  lemma LimitsMet(skipped: nat, covered: nat, unclear: nat, controls: nat, ev: seq<Evidence>)
    ensures var domains := Mix(covered, unclear) + [Open(controls)];
            var v := Finalize(seq(skipped, _ => SKIPPED), domains, ev);
            var decided := skipped <= 2 && |ev| >= 5 && unclear <= covered + 1;
            && v.status != "BLOCKED" && (v.status == "INCONCLUSIVE" <==> !decided)
            && (v.status == "READY" <==> decided && covered > 3 * unclear + 1 && controls <= 3)
  {
    var gates, mix, open := seq(skipped, _ => SKIPPED), Mix(covered, unclear), Open(controls);
    var domains := mix + [open];
    AllSkipped(skipped);
    MixAndOpen(covered, unclear, controls);
    assert forall d :: d in domains ==> !d.critical;
    assert forall g :: g in gates ==> g.status == "skipped";
    hide CoverageSum, GapCount, DomainsWith, GatesWith, Finalize, Mix, Open, SKIPPED;
    SkippedAreCounted(gates);
    UnclearAreCounted(domains);
    GapsAreCounted(domains);
    hide Where, MajorGaps;
    VerdictExactly(gates, domains, ev);
  }

  lemma MixAndOpen(covered: nat, unclear: nat, controls: nat)
    ensures var ds := Mix(covered, unclear) + [Open(controls)];
            && |ds| == covered + unclear + 1 && CoverageSum(ds, false) == covered as real + 0.5
            && GapCount(ds) == controls && DomainsWith(ds, "inconclusive") == unclear
  {
    var mix, open := Mix(covered, unclear), Open(controls);
    var ds := mix + [open];
    MixTotals(covered, unclear);
    assert ds[..|ds| - 1] == mix && ds[|ds| - 1] == open;
  }

  // ---- What each part adds to the confidence ----

  lemma {:induction false} PassesUpdated(gates: seq<Gate>, i: nat, status: string, s: string)
    requires i < |gates|
    ensures GatesWith(gates[i := gates[i].(status := status)], s) ==
            GatesWith(gates, s) - (if gates[i].status == s then 1 else 0) + (if status == s then 1 else 0)
    decreases |gates|
  {
    var n, changed := |gates| - 1, gates[i := gates[i].(status := status)];
    if i < n {
      PassesUpdated(gates[..n], i, status, s);
      assert changed[..n] == gates[..n][i := gates[i].(status := status)];
    } else {
      assert changed[..n] == gates[..n];
    }
  }

  lemma {:induction false} CoverageUpdated(domains: seq<Domain>, i: nat, c: real, criticalOnly: bool)
    requires i < |domains|
    ensures var changed := domains[i := domains[i].(coverage := c)];
            && CriticalCount(changed) == CriticalCount(domains)
            && CoverageSum(changed, criticalOnly) == CoverageSum(domains, criticalOnly) +
               (if !criticalOnly || domains[i].critical then c - domains[i].coverage else 0.0)
    decreases |domains|
  {
    var n, changed := |domains| - 1, domains[i := domains[i].(coverage := c)];
    if i < n {
      CoverageUpdated(domains[..n], i, c, criticalOnly);
      assert changed[..n] == domains[..n][i := domains[i].(coverage := c)];
    } else {
      assert changed[..n] == domains[..n];
    }
  }

  lemma {:induction false} BackedUpdated(ev: seq<Evidence>, i: nat)
    requires i < |ev| && !ev[i].executionBacked
    ensures ExecutionBacked(ev[i := ev[i].(executionBacked := true)]) == ExecutionBacked(ev) + 1
    decreases |ev|
  {
    var n, changed := |ev| - 1, ev[i := ev[i].(executionBacked := true)];
    if i < n {
      BackedUpdated(ev[..n], i);
      assert changed[..n] == ev[..n][i := ev[i].(executionBacked := true)];
    } else {
      assert changed[..n] == ev[..n];
    }
  }

  lemma DivAdds(x: real, y: real, n: real)
    requires n > 0.0
    ensures (x + y) / n == x / n + y / n
  {
  }

  // A failing gate that comes to pass adds forty points shared among the gates that ran.
  lemma GateAdds(gates: seq<Gate>, domains: seq<Domain>, ev: seq<Evidence>, i: nat)
    requires i < |gates| && gates[i].status != "pass" && gates[i].status != "skipped"
    ensures var ran := |gates| - GatesWith(gates, "skipped");
            && ran > 0
            && Score(gates[i := gates[i].(status := "pass")], domains, ev) ==
               Score(gates, domains, ev) + 40.0 / ran as real
  {
    hide Average, CoverageSum, CriticalCount, ExecutionBacked, GatesWith;
    var changed := gates[i := gates[i].(status := "pass")];
    PassesUpdated(gates, i, "pass", "pass");
    PassesUpdated(gates, i, "pass", "skipped");
    SomeGateRan(gates, i);
    var ran, p := |gates| - GatesWith(gates, "skipped"), GatesWith(gates, "pass") as real;
    DivAdds(p, 1.0, ran as real);
    assert Ratio(GatesWith(changed, "pass"), ran) == p / ran as real + 1.0 / ran as real;
    assert 1.0 / ran as real * 40.0 == 40.0 / ran as real;
  }

  lemma {:induction false} SomeGateRan(gates: seq<Gate>, i: nat)
    requires i < |gates| && gates[i].status != "skipped"
    ensures GatesWith(gates, "skipped") < |gates|
    decreases |gates|
  {
    var n := |gates| - 1;
    if i < n {
      SomeGateRan(gates[..n], i);
    }
  }

  // Evidence that turns out to be backed by execution adds twenty shared among all of it.
  lemma BackingAdds(gates: seq<Gate>, domains: seq<Domain>, ev: seq<Evidence>, i: nat)
    requires i < |ev| && !ev[i].executionBacked
    ensures Score(gates, domains, ev[i := ev[i].(executionBacked := true)]) ==
            Score(gates, domains, ev) + 20.0 / |ev| as real
  {
    hide Average, CoverageSum, CriticalCount, ExecutionBacked, GatesWith;
    var changed := ev[i := ev[i].(executionBacked := true)];
    BackedUpdated(ev, i);
    var n, b := |ev| as real, ExecutionBacked(ev) as real;
    DivAdds(b, 1.0, n);
    assert Ratio(ExecutionBacked(changed), |ev|) == b / n + 1.0 / n;
    assert 1.0 / n * 20.0 == 20.0 / n;
  }

  // Coverage gained by a domain adds thirty times its share of the domains, and a critical one
  // ten times its share of the critical ones on top.
  lemma CoverageAdds(gates: seq<Gate>, domains: seq<Domain>, ev: seq<Evidence>, i: nat, gain: real)
    requires i < |domains|
    ensures domains[i].critical ==> CriticalCount(domains) > 0
    ensures var changed := domains[i := domains[i].(coverage := domains[i].coverage + gain)];
            Score(gates, changed, ev) == Score(gates, domains, ev) + gain / |domains| as real * 30.0 +
              (if domains[i].critical then gain / CriticalCount(domains) as real * 10.0 else 0.0)
  {
    hide CoverageSum, CriticalCount, ExecutionBacked, GatesWith, Ratio;
    var c := domains[i].coverage + gain;
    CoverageUpdated(domains, i, c, false);
    CoverageUpdated(domains, i, c, true);
    DivAdds(CoverageSum(domains, false), gain, |domains| as real);
    if domains[i].critical {
      SomeCritical(domains, i);
      DivAdds(CoverageSum(domains, true), gain, CriticalCount(domains) as real);
    }
  }

  lemma {:induction false} SomeCritical(domains: seq<Domain>, i: nat)
    requires i < |domains| && domains[i].critical
    ensures CriticalCount(domains) > 0
    decreases |domains|
  {
    var n := |domains| - 1;
    if i < n {
      SomeCritical(domains[..n], i);
    }
  }

  // A run with nothing to show has no points, or ten where no domain is critical.
  lemma NothingScored(gates: seq<Gate>, domains: seq<Domain>, ev: seq<Evidence>)
    requires forall i :: 0 <= i < |gates| ==> gates[i].status != "pass"
    requires forall i :: 0 <= i < |domains| ==> domains[i].coverage == 0.0
    requires forall i :: 0 <= i < |ev| ==> !ev[i].executionBacked
    ensures Score(gates, domains, ev) == if exists i :: 0 <= i < |domains| && domains[i].critical then 0.0 else 10.0
  {
    NoPasses(gates);
    NoCoverage(domains, false);
    NoCoverage(domains, true);
    NoBacking(ev);
    if i :| 0 <= i < |domains| && domains[i].critical {
      SomeCritical(domains, i);
    } else {
      NoCritical(domains);
    }
    hide CoverageSum, CriticalCount, ExecutionBacked, GatesWith;
  }

  lemma {:induction false} NoPasses(gates: seq<Gate>)
    requires forall i :: 0 <= i < |gates| ==> gates[i].status != "pass"
    ensures GatesWith(gates, "pass") == 0
    decreases |gates|
  {
    if gates != [] {
      NoPasses(gates[..|gates| - 1]);
    }
  }

  lemma {:induction false} NoCoverage(domains: seq<Domain>, criticalOnly: bool)
    requires forall i :: 0 <= i < |domains| ==> domains[i].coverage == 0.0
    ensures CoverageSum(domains, criticalOnly) == 0.0
    decreases |domains|
  {
    if domains != [] {
      NoCoverage(domains[..|domains| - 1], criticalOnly);
    }
  }

  lemma {:induction false} NoBacking(ev: seq<Evidence>)
    requires forall i :: 0 <= i < |ev| ==> !ev[i].executionBacked
    ensures ExecutionBacked(ev) == 0
    decreases |ev|
  {
    if ev != [] {
      NoBacking(ev[..|ev| - 1]);
    }
  }

  lemma {:induction false} NoCritical(domains: seq<Domain>)
    requires forall i :: 0 <= i < |domains| ==> !domains[i].critical
    ensures CriticalCount(domains) == 0
    decreases |domains|
  {
    if domains != [] {
      NoCritical(domains[..|domains| - 1]);
    }
  }
}
