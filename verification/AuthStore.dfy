/**
The credential store of the CLI: eligibility, CLI-first suppression, session pin,
least-recently-used choice, fallback chains and exponential cooldowns. The clock is an
argument, in milliseconds.
*/
module AuthStore {
  import opened Text

  datatype ProfileType = ApiKey | OAuth
  datatype CooldownReason = RateLimit | AuthError | BillingError | UnsupportedMethod

  datatype AuthProfile = AuthProfile(
    id: string, provider: string, kind: ProfileType, lbl: string,
    apiKey: string, accessToken: string, refreshToken: string, email: string,
    expiresAt: int, source: string, lastUsedAt: int)

  datatype CooldownEntry = CooldownEntry(untilMs: int, consecutive: int, reason: CooldownReason)

  datatype ResolvedAuth = ResolvedAuth(profileId: string, provider: string, token: string, isOauth: bool)

  datatype Store = Store(
    profiles: seq<AuthProfile>, chains: map<string, seq<string>>,
    cooldowns: map<string, CooldownEntry>, pin: string)

  // ---- Which profiles may be used ----

  predicate CooledDown(st: Store, id: string, now: int) {
    id in st.cooldowns && now < st.cooldowns[id].untilMs
  }

  predicate Expired(p: AuthProfile, now: int) {
    p.kind.OAuth? && p.expiresAt > 0 && now >= p.expiresAt
  }

  predicate CliImport(p: AuthProfile) {
    p.source == "claude_code_import" || p.source == "gemini_import"
  }

  predicate Eligible(st: Store, provider: string, now: int, i: nat)
    requires i < |st.profiles|
  {
    var p := st.profiles[i];
    p.provider == provider && !CooledDown(st, p.id, now) && !Expired(p, now)
  }

  predicate SignedInByCli(st: Store, provider: string, now: int) {
    exists i :: 0 <= i < |st.profiles| && Eligible(st, provider, now, i) && CliImport(st.profiles[i])
  }

  // Eligible, and not an environment key hidden by a CLI sign-in.
  predicate Candidate(st: Store, provider: string, now: int, i: nat)
    requires i < |st.profiles|
  {
    Eligible(st, provider, now, i) &&
    !(st.profiles[i].source == "env" && SignedInByCli(st, provider, now))
  }

  // ---- Which of them is used ----

  // The comparator handed to stable_sort: CLI imports, then OAuth, then oldest use.
  predicate Before(a: AuthProfile, b: AuthProfile) {
    if CliImport(a) != CliImport(b) then CliImport(a)
    else if a.kind != b.kind then a.kind.OAuth?
    else a.lastUsedAt < b.lastUsedAt
  }

  // The order stable_sort leaves the candidates in: the comparator, then position.
  predicate Precedes(ps: seq<AuthProfile>, i: nat, j: nat)
    requires i < |ps| && j < |ps|
  {
    Before(ps[i], ps[j]) || (!Before(ps[j], ps[i]) && i < j)
  }

  lemma PrecedesIsTotalOrder(ps: seq<AuthProfile>, i: nat, j: nat, k: nat)
    requires i < |ps| && j < |ps| && k < |ps|
    ensures !Precedes(ps, i, i)
    ensures i != j ==> Precedes(ps, i, j) != Precedes(ps, j, i)
    ensures Precedes(ps, i, j) && Precedes(ps, j, k) ==> Precedes(ps, i, k)
  {
  }

  ghost predicate First(st: Store, provider: string, now: int, i: nat) {
    && i < |st.profiles| && Candidate(st, provider, now, i)
    && forall j: nat :: j < |st.profiles| && j != i && Candidate(st, provider, now, j) ==>
         Precedes(st.profiles, i, j)
  }

  ghost predicate Pinned(st: Store, provider: string, now: int, i: nat) {
    && i < |st.profiles| && Candidate(st, provider, now, i)
    && st.pin != "" && st.profiles[i].id == st.pin
    && forall j: nat :: j < i && Candidate(st, provider, now, j) ==> st.profiles[j].id != st.pin
  }

  ghost predicate PinApplies(st: Store, provider: string, now: int) {
    st.pin != "" &&
    exists i: nat :: i < |st.profiles| && Candidate(st, provider, now, i) && st.profiles[i].id == st.pin
  }

  // The specification of pick_best, as a property of the chosen position.
  ghost predicate Chosen(st: Store, provider: string, now: int, i: nat) {
    if PinApplies(st, provider, now) then Pinned(st, provider, now, i) else First(st, provider, now, i)
  }

  function Resolved(p: AuthProfile): ResolvedAuth {
    ResolvedAuth(p.id, p.provider, if p.kind.OAuth? then p.accessToken else p.apiKey, p.kind.OAuth?)
  }

  // The answer is about that profile and carries its secret.
  predicate Gives(p: AuthProfile, auth: ResolvedAuth) {
    && auth.profileId == p.id && auth.provider == p.provider && (auth.isOauth <==> p.kind == OAuth)
    && match p.kind
       case OAuth => auth.token == p.accessToken
       case ApiKey => auth.token == p.apiKey
  }

  // ---- pick_best as a function ----

  function PinnedFrom(st: Store, provider: string, now: int, i: nat): (r: Option<nat>)
    requires i <= |st.profiles|
    ensures r.Some? ==> i <= r.value < |st.profiles|
    decreases |st.profiles| - i
  {
    if i == |st.profiles| then None
    else if Candidate(st, provider, now, i) && st.profiles[i].id == st.pin then Some(i)
    else PinnedFrom(st, provider, now, i + 1)
  }

  // The first minimum under the comparator among the candidates before position i.
  function BestBefore(st: Store, provider: string, now: int, i: nat): (r: Option<nat>)
    requires i <= |st.profiles|
    ensures r.Some? ==> r.value < i
  {
    if i == 0 then None
    else
      var best := BestBefore(st, provider, now, i - 1);
      if !Candidate(st, provider, now, i - 1) then best
      else if best.Some? && !Before(st.profiles[i - 1], st.profiles[best.value]) then best
      else Some(i - 1)
  }

  function Pick(st: Store, provider: string, now: int): (r: Option<nat>)
    ensures r.Some? ==> r.value < |st.profiles|
  {
    var pinned := if st.pin == "" then None else PinnedFrom(st, provider, now, 0);
    if pinned.Some? then pinned else BestBefore(st, provider, now, |st.profiles|)
  }

  function Resolve(st: Store, provider: string, now: int): Option<ResolvedAuth> {
    var i := Pick(st, provider, now);
    if i.None? then None else Some(Resolved(st.profiles[i.value]))
  }

  function ChainOf(st: Store, provider: string): seq<string> {
    [provider] + (if provider in st.chains then st.chains[provider] else [])
  }

  function FirstResolved(st: Store, providers: seq<string>, now: int): Option<ResolvedAuth> {
    if providers == [] then None
    else
      var auth := Resolve(st, providers[0], now);
      if auth.Some? then auth else FirstResolved(st, providers[1..], now)
  }

  function ResolveWithFallback(st: Store, provider: string, now: int): Option<ResolvedAuth> {
    FirstResolved(st, ChainOf(st, provider), now)
  }

  // ---- The function meets the specification ----

  lemma {:induction false} PinnedFromFinds(st: Store, provider: string, now: int, i: nat)
    requires i <= |st.profiles|
    ensures var r := PinnedFrom(st, provider, now, i);
            && (r.Some? ==> Candidate(st, provider, now, r.value) && st.profiles[r.value].id == st.pin)
            && forall j: nat ::
                 (i <= j < (if r.Some? then r.value else |st.profiles|) && Candidate(st, provider, now, j)
                  ==> st.profiles[j].id != st.pin)
    decreases |st.profiles| - i
  {
    if i < |st.profiles| {
      PinnedFromFinds(st, provider, now, i + 1);
    }
  }

  lemma {:induction false} BestBeforeIsFirst(st: Store, provider: string, now: int, i: nat)
    requires i <= |st.profiles|
    ensures var r := BestBefore(st, provider, now, i);
            && (r.None? ==> forall j: nat :: j < i ==> !Candidate(st, provider, now, j))
            && (r.Some? ==> Candidate(st, provider, now, r.value))
            && (r.Some? ==> forall j: nat :: j < i && j != r.value && Candidate(st, provider, now, j) ==>
                  Precedes(st.profiles, r.value, j))
  {
    if i > 0 {
      BestBeforeIsFirst(st, provider, now, i - 1);
    }
  }

  // Suppressing environment keys never empties the candidate list, so front() is safe.
  lemma SuppressionLeavesOne(st: Store, provider: string, now: int)
    ensures (exists i :: 0 <= i < |st.profiles| && Eligible(st, provider, now, i)) <==>
            (exists i :: 0 <= i < |st.profiles| && Candidate(st, provider, now, i))
  {
    if SignedInByCli(st, provider, now) {
      var i :| 0 <= i < |st.profiles| && Eligible(st, provider, now, i) && CliImport(st.profiles[i]);
      assert Candidate(st, provider, now, i);
    } else if i :| 0 <= i < |st.profiles| && Eligible(st, provider, now, i) {
      assert Candidate(st, provider, now, i);
    }
  }

  lemma ChosenIsUnique(st: Store, provider: string, now: int, i: nat, j: nat)
    requires Chosen(st, provider, now, i) && Chosen(st, provider, now, j)
    ensures i == j
  {
    if i != j && !PinApplies(st, provider, now) {
      PrecedesIsTotalOrder(st.profiles, i, j, i);
    }
  }

  lemma NoneChosen(st: Store, provider: string, now: int)
    ensures (exists i: nat :: Chosen(st, provider, now, i)) ==>
            exists i :: 0 <= i < |st.profiles| && Eligible(st, provider, now, i)
  {
    if i: nat :| Chosen(st, provider, now, i) {
      assert Eligible(st, provider, now, i);
    }
  }

  // pick_best refines its specification: it answers exactly when a profile is eligible, and
  // then with the one position the specification names.
  lemma PickMeetsSpec(st: Store, provider: string, now: int)
    ensures var r := Pick(st, provider, now);
            && (r.Some? <==> exists i :: 0 <= i < |st.profiles| && Eligible(st, provider, now, i))
            && (r.Some? ==> forall i: nat :: Chosen(st, provider, now, i) <==> i == r.value)
  {
    var r := Pick(st, provider, now);
    SuppressionLeavesOne(st, provider, now);
    PinnedFromFinds(st, provider, now, 0);
    BestBeforeIsFirst(st, provider, now, |st.profiles|);
    if r.Some? {
      assert Candidate(st, provider, now, r.value);
      assert Chosen(st, provider, now, r.value);
      forall i: nat | Chosen(st, provider, now, i)
        ensures i == r.value
      {
        ChosenIsUnique(st, provider, now, i, r.value);
      }
    }
  }

  ghost predicate HasEligible(st: Store, provider: string, now: int) {
    exists i :: 0 <= i < |st.profiles| && Eligible(st, provider, now, i)
  }

  lemma {:induction false} FirstResolvedIsFirst(st: Store, providers: seq<string>, now: int) returns (k: nat)
    ensures k <= |providers|
    ensures forall j :: 0 <= j < k ==> !HasEligible(st, providers[j], now)
    ensures k < |providers| ==> HasEligible(st, providers[k], now)
    ensures FirstResolved(st, providers, now) ==
            if k < |providers| then Resolve(st, providers[k], now) else None
    decreases |providers|
  {
    k := 0;
    if providers != [] {
      PickMeetsSpec(st, providers[0], now);
      if !HasEligible(st, providers[0], now) {
        var m := FirstResolvedIsFirst(st, providers[1..], now);
        k := m + 1;
        assert forall j :: 0 < j < |providers| ==> providers[j] == providers[1..][j - 1];
      }
    }
  }

  ghost predicate FirstAble(st: Store, chain: seq<string>, now: int, k: nat)
    requires k < |chain|
  {
    HasEligible(st, chain[k], now) && forall j :: 0 <= j < k ==> !HasEligible(st, chain[j], now)
  }

  // The answer comes from the first provider of [p] + chain that has an eligible profile, and
  // is missing only when none of them has one.
  lemma FallbackMeetsSpec(st: Store, provider: string, now: int)
    ensures var chain := ChainOf(st, provider);
            var r := ResolveWithFallback(st, provider, now);
            && (r.None? <==> forall k :: 0 <= k < |chain| ==> !HasEligible(st, chain[k], now))
            && forall k :: 0 <= k < |chain| && FirstAble(st, chain, now, k) ==>
                 r.Some? && r == Resolve(st, chain[k], now) && r.value.provider == chain[k]
  {
    var chain := ChainOf(st, provider);
    var k := FirstResolvedIsFirst(st, chain, now);
    if k < |chain| {
      PickMeetsSpec(st, chain[k], now);
      var i := Pick(st, chain[k], now).value;
      assert Chosen(st, chain[k], now, i);
    }
  }

  // ---- The class ----

  class AuthProfileStore {
    var profiles: seq<AuthProfile>
    var chains: map<string, seq<string>>
    var cooldowns: map<string, CooldownEntry>
    var pin: string

    constructor (st: Store)
      ensures View() == st
    {
      profiles, chains, cooldowns, pin := st.profiles, st.chains, st.cooldowns, st.pin;
    }

    function View(): Store
      reads this
    {
      Store(profiles, chains, cooldowns, pin)
    }

    // The loops of pick_best: gather, suppress, look for the pin, sort, take the front.
    method BestPosition(provider: string, now: int) returns (r: Option<nat>)
      ensures r == Pick(View(), provider, now)
    {
      var st := View();
      PickMeetsSpec(st, provider, now);
      var eligible, signedIn := GatherEligible(st, provider, now);
      if eligible == [] {
        assert forall i :: 0 <= i < |st.profiles| && Eligible(st, provider, now, i) ==> i in eligible;
        return None;
      }
      var candidates := eligible;
      if signedIn {
        candidates := DropEnv(st, eligible);
      }
      CandidateList(st, provider, now, eligible, candidates);
      if pin != "" {
        var n := 0;
        while n < |candidates|
          invariant n <= |candidates|
          invariant forall m :: 0 <= m < n ==> profiles[candidates[m]].id != pin
        {
          var i := candidates[n];
          if profiles[i].id == pin {
            assert Pinned(st, provider, now, i) && Chosen(st, provider, now, i);
            return Some(i);
          }
          n := n + 1;
        }
      }
      assert !PinApplies(st, provider, now);
      var sorted := StableSort(profiles, candidates);
      var best := sorted[0];
      FrontIsFirst(st, provider, now, candidates, sorted);
      assert Chosen(st, provider, now, best);
      r := Some(best);
    }

    method PickBest(provider: string, now: int) returns (r: Option<ResolvedAuth>)
      ensures r == Resolve(View(), provider, now)
      ensures forall i: nat :: Chosen(View(), provider, now, i) ==>
                i < |profiles| && r.Some? && Gives(profiles[i], r.value)
    {
      hide Pick, Chosen;
      PickMeetsSpec(View(), provider, now);
      NoneChosen(View(), provider, now);
      var i := BestPosition(provider, now);
      if i.None? {
        return None;
      }
      var p := profiles[i.value];
      r := Some(ResolvedAuth(
        p.id, p.provider, if p.kind.OAuth? then p.accessToken else p.apiKey, p.kind.OAuth?));
    }

    method ResolveOne(provider: string, now: int) returns (r: Option<ResolvedAuth>)
      ensures r == Resolve(View(), provider, now)
      ensures forall i: nat :: Chosen(View(), provider, now, i) ==>
                i < |profiles| && r.Some? && Gives(profiles[i], r.value)
    {
      r := PickBest(provider, now);
    }

    method ResolveAny(provider: string, now: int) returns (r: Option<ResolvedAuth>)
      ensures r == ResolveWithFallback(View(), provider, now)
    {
      r := PickBest(provider, now);
      assert ChainOf(View(), provider)[0] == provider;
      if r.Some? {
        return;
      }
      assert ChainOf(View(), provider)[1..] == if provider in chains then chains[provider] else [];
      if provider in chains {
        var chain := chains[provider];
        for n := 0 to |chain|
          invariant FirstResolved(View(), chain[n..], now) == ResolveWithFallback(View(), provider, now)
        {
          r := PickBest(chain[n], now);
          assert chain[n..][0] == chain[n];
          if r.Some? {
            return;
          }
          assert chain[n..][1..] == chain[n + 1..];
        }
        assert chain[|chain|..] == [];
      }
      assert FirstResolved(View(), [], now) == None;
      r := None;
    }

    method PinSession(profileId: string)
      modifies this
      ensures View() == old(View()).(pin := profileId)
    {
      pin := profileId;
    }

    method FindId(id: string) returns (r: Option<nat>)
      ensures r == IndexOfId(profiles, id)
    {
      for n := 0 to |profiles|
        invariant forall j :: 0 <= j < n ==> profiles[j].id != id
      {
        if profiles[n].id == id {
          return Some(n);
        }
      }
      r := None;
    }

    method AddKey(provider: string, key: string, lbl: string)
      modifies this
      ensures View() == AddApiKey(old(View()), provider, key, lbl)
    {
      hide IndexOfId;
      var id := provider + ":" + (if lbl == "" then "api_key" else lbl);
      var found := FindId(id);
      if found.Some? {
        var i := found.value;
        profiles := profiles[i := profiles[i].(apiKey := key, lbl := lbl)];
        return;
      }
      var profile := AuthProfile(
        id, provider, ApiKey, if lbl == "" then "API Key" else lbl, key, "", "", "", 0, "manual", 0);
      profiles := profiles + [profile];
    }

    method AddSignIn(provider: string, access: string, refresh: string, expiresAt: int, email: string)
      modifies this
      ensures View() == AddOauth(old(View()), provider, access, refresh, expiresAt, email)
    {
      hide IndexOfId;
      var id := provider + ":" + (if email == "" then "oauth" else email);
      var found := FindId(id);
      if found.Some? {
        var i := found.value;
        profiles := profiles[i := profiles[i].(
          accessToken := access, refreshToken := refresh, expiresAt := expiresAt, email := email)];
        return;
      }
      var profile := AuthProfile(
        id, provider, OAuth, if email == "" then "OAuth" else email,
        "", access, refresh, email, expiresAt, "browser_oauth", 0);
      profiles := profiles + [profile];
    }

    // The common end of the imports: nothing without a secret, and one import per source.
    method ImportProfile(p: AuthProfile)
      modifies this
      ensures View() == Import(old(View()), p)
    {
      if p.apiKey == "" && p.accessToken == "" {
        return;
      }
      for n := 0 to |profiles|
        invariant View() == old(View())
        invariant forall j :: 0 <= j < n ==> !(profiles[j].source == p.source && profiles[j].provider == p.provider)
      {
        if profiles[n].source == p.source && profiles[n].provider == p.provider {
          return;
        }
      }
      profiles := profiles + [p];
    }

    method RemoveProfile(id: string)
      modifies this
      ensures View() == Remove(old(View()), id)
    {
      profiles := WithoutId(profiles, id);
      cooldowns := cooldowns - {id};
      if pin == id {
        pin := "";
      }
    }

    // False when computing the delay overflows int64_t, which the language leaves undefined.
    method ReportFailure(profileId: string, reason: CooldownReason, now: int) returns (defined: bool)
      modifies this
      ensures defined == FailureDefined(old(View()), profileId, reason)
      ensures View() == if defined then Fail(old(View()), profileId, reason, now) else old(View())
    {
      var entry := EntryOf(View(), profileId);
      var delay := ComputeCooldown(reason, entry.consecutive + 1);
      if delay.None? {
        return false;
      }
      cooldowns := cooldowns[profileId := CooldownEntry(now + delay.value, entry.consecutive + 1, reason)];
      defined := true;
    }

    method ReportSuccess(profileId: string, now: int)
      modifies this
      ensures View() == Succeed(old(View()), profileId, now)
    {
      cooldowns := cooldowns - {profileId};
      var n := 0;
      while n < |profiles| && profiles[n].id != profileId
        invariant n <= |profiles| && profiles == old(profiles)
        invariant forall j :: 0 <= j < n ==> profiles[j].id != profileId
      {
        n := n + 1;
      }
      if n < |profiles| {
        TouchOne(profiles, n, now);
        profiles := profiles[n := profiles[n].(lastUsedAt := now)];
      } else {
        TouchNone(profiles, profileId, now);
      }
    }
  }

  // ---- Helpers of pick_best ----

  predicate Ascending(s: seq<nat>) {
    forall i, j :: 0 <= i < j < |s| ==> s[i] < s[j]
  }

  predicate Within(s: seq<nat>, bound: nat) {
    forall k :: 0 <= k < |s| ==> s[k] < bound
  }

  // Candidate pointers are positions in the profile list, in discovery order.
  method GatherEligible(st: Store, provider: string, now: int) returns (found: seq<nat>, signedIn: bool)
    ensures Ascending(found) && Within(found, |st.profiles|)
    ensures forall i: nat :: i in found <==> i < |st.profiles| && Eligible(st, provider, now, i)
    ensures signedIn == SignedInByCli(st, provider, now)
  {
    found, signedIn := [], false;
    for n := 0 to |st.profiles|
      invariant Ascending(found) && Within(found, n)
      invariant forall i: nat :: i in found <==> i < n && Eligible(st, provider, now, i)
      invariant signedIn <==>
                exists i :: 0 <= i < n && Eligible(st, provider, now, i) && CliImport(st.profiles[i])
    {
      var p := st.profiles[n];
      if p.provider == provider && !CooledDown(st, p.id, now) && !Expired(p, now) {
        if CliImport(p) {
          signedIn := true;
        }
        found := found + [n];
      }
    }
  }

  method DropEnv(st: Store, s: seq<nat>) returns (kept: seq<nat>)
    requires Ascending(s) && Within(s, |st.profiles|)
    ensures Ascending(kept) && Within(kept, |st.profiles|)
    ensures forall i :: i in kept <==> i in s && st.profiles[i].source != "env"
  {
    kept := [];
    for n := 0 to |s|
      invariant Ascending(kept) && forall k, m :: 0 <= k < |kept| && n <= m < |s| ==> kept[k] < s[m]
      invariant Within(kept, |st.profiles|) && Within(s[..n], |st.profiles|)
      invariant forall i :: i in kept <==> i in s[..n] && st.profiles[i].source != "env"
    {
      assert s[..n + 1] == s[..n] + [s[n]];
      if st.profiles[s[n]].source != "env" {
        kept := kept + [s[n]];
      }
    }
    assert s[..|s|] == s;
  }

  ghost predicate ListsCandidates(st: Store, provider: string, now: int, s: seq<nat>) {
    && Ascending(s) && Within(s, |st.profiles|)
    && forall i: nat :: i in s <==> i < |st.profiles| && Candidate(st, provider, now, i)
  }

  lemma CandidateList(st: Store, provider: string, now: int, eligible: seq<nat>, kept: seq<nat>)
    requires eligible != [] && Ascending(kept) && Within(kept, |st.profiles|)
    requires forall i: nat :: i in eligible <==> i < |st.profiles| && Eligible(st, provider, now, i)
    requires if SignedInByCli(st, provider, now)
             then forall i :: i in kept <==> i in eligible && st.profiles[i].source != "env"
             else kept == eligible
    ensures ListsCandidates(st, provider, now, kept) && kept != []
  {
    SuppressionLeavesOne(st, provider, now);
    assert eligible[0] in eligible;
    var i :| 0 <= i < |st.profiles| && Candidate(st, provider, now, i);
    assert i in kept;
  }

  predicate InOrder(ps: seq<AuthProfile>, s: seq<nat>) {
    && Within(s, |ps|)
    && forall i, j :: 0 <= i < j < |s| ==> Precedes(ps, s[i], s[j])
  }

  // std::stable_sort under the comparator, as insertion of one element after another.
  method StableSort(ps: seq<AuthProfile>, s: seq<nat>) returns (r: seq<nat>)
    requires Ascending(s) && Within(s, |ps|)
    ensures InOrder(ps, r) && |r| == |s|
    ensures forall i :: i in r <==> i in s
  {
    r := [];
    for n := 0 to |s|
      invariant InOrder(ps, r) && |r| == n && forall k, m :: 0 <= k < n <= m < |s| ==> r[k] < s[m]
      invariant forall i :: i in r <==> i in s[..n]
    {
      var x, k := s[n], 0;
      while k < |r| && !Before(ps[x], ps[r[k]])
        invariant k <= |r|
        invariant forall m :: 0 <= m < k ==> !Before(ps[x], ps[r[m]])
      {
        k := k + 1;
      }
      Inserted(ps, r, x, k);
      r := r[..k] + [x] + r[k..];
      assert s[..n + 1] == s[..n] + [x];
    }
    assert s[..|s|] == s;
  }

  lemma Inserted(ps: seq<AuthProfile>, r: seq<nat>, x: nat, k: nat)
    requires InOrder(ps, r) && k <= |r| && x < |ps|
    requires Within(r, x)
    requires forall m :: 0 <= m < k ==> !Before(ps[x], ps[r[m]])
    requires k < |r| ==> Before(ps[x], ps[r[k]])
    ensures InOrder(ps, r[..k] + [x] + r[k..])
    ensures forall i :: i in r[..k] + [x] + r[k..] <==> i in r || i == x
  {
    forall m | 0 <= m < |r|
      ensures if m < k then Precedes(ps, r[m], x) else Precedes(ps, x, r[m])
    {
      if m > k {
        PrecedesIsTotalOrder(ps, x, r[k], r[m]);
      }
    }
    hide Precedes, Before, InOrder, Within;
    Spliced(r, x, k);
    SplicedInOrder(ps, r, x, k, r[..k] + [x] + r[k..]);
  }

  function SpliceAt(r: seq<nat>, x: nat, k: nat, j: nat): nat
    requires k <= |r| && j <= |r|
  {
    if j < k then r[j] else if j == k then x else r[j - 1]
  }

  lemma Spliced(r: seq<nat>, x: nat, k: nat)
    requires k <= |r|
    ensures forall j :: 0 <= j <= |r| ==> (r[..k] + [x] + r[k..])[j] == SpliceAt(r, x, k, j)
    ensures forall i :: i in r[..k] + [x] + r[k..] <==> i in r || i == x
  {
    assert r == r[..k] + r[k..];
  }

  lemma SplicedInOrder(ps: seq<AuthProfile>, r: seq<nat>, x: nat, k: nat, t: seq<nat>)
    requires InOrder(ps, r) && k <= |r| && x < |ps| && |t| == |r| + 1
    requires forall j :: 0 <= j <= |r| ==> t[j] == SpliceAt(r, x, k, j)
    requires forall m :: 0 <= m < |r| ==> if m < k then Precedes(ps, r[m], x) else Precedes(ps, x, r[m])
    ensures InOrder(ps, t)
  {
    hide Precedes, Before;
  }

  lemma FrontIsFirst(st: Store, provider: string, now: int, candidates: seq<nat>, sorted: seq<nat>)
    requires ListsCandidates(st, provider, now, candidates) && candidates != []
    requires InOrder(st.profiles, sorted) && |sorted| == |candidates|
    requires forall i :: i in sorted <==> i in candidates
    ensures First(st, provider, now, sorted[0])
  {
    assert sorted[0] in sorted;
    forall j: nat | j < |st.profiles| && j != sorted[0] && Candidate(st, provider, now, j)
      ensures Precedes(st.profiles, sorted[0], j)
    {
      assert j in sorted;
    }
  }

  // ---- Operations on the store as a value ----

  function WithoutId(ps: seq<AuthProfile>, id: string): seq<AuthProfile> {
    if ps == [] then []
    else (if ps[0].id == id then [] else [ps[0]]) + WithoutId(ps[1..], id)
  }

  function Remove(st: Store, id: string): Store {
    st.(profiles := WithoutId(st.profiles, id), cooldowns := st.cooldowns - {id},
        pin := if st.pin == id then "" else st.pin)
  }

  // Sets the use time of the first profile with an id.
  function Touch(ps: seq<AuthProfile>, id: string, now: int): (r: seq<AuthProfile>)
    ensures |r| == |ps|
  {
    if ps == [] then []
    else if ps[0].id == id then [ps[0].(lastUsedAt := now)] + ps[1..]
    else [ps[0]] + Touch(ps[1..], id, now)
  }

  lemma {:induction false} TouchOne(ps: seq<AuthProfile>, i: nat, now: int)
    requires i < |ps| && forall j :: 0 <= j < i ==> ps[j].id != ps[i].id
    ensures Touch(ps, ps[i].id, now) == ps[i := ps[i].(lastUsedAt := now)]
    decreases i
  {
    if i > 0 {
      TouchOne(ps[1..], i - 1, now);
      assert ps == [ps[0]] + ps[1..];
    }
  }

  lemma {:induction false} TouchNone(ps: seq<AuthProfile>, id: string, now: int)
    requires forall j :: 0 <= j < |ps| ==> ps[j].id != id
    ensures Touch(ps, id, now) == ps
    decreases |ps|
  {
    if ps != [] {
      TouchNone(ps[1..], id, now);
      assert ps == [ps[0]] + ps[1..];
    }
  }

  function Succeed(st: Store, id: string, now: int): Store {
    st.(cooldowns := st.cooldowns - {id}, profiles := Touch(st.profiles, id, now))
  }

  // cooldowns_[id]: the entry, or a new default one.
  function EntryOf(st: Store, id: string): CooldownEntry {
    if id in st.cooldowns then st.cooldowns[id] else CooldownEntry(0, 0, RateLimit)
  }

  predicate FailureDefined(st: Store, id: string, reason: CooldownReason) {
    Delay(reason, EntryOf(st, id).consecutive + 1).Some?
  }

  function Fail(st: Store, id: string, reason: CooldownReason, now: int): Store
    requires FailureDefined(st, id, reason)
  {
    var n := EntryOf(st, id).consecutive + 1;
    st.(cooldowns := st.cooldowns[id := CooldownEntry(now + Delay(reason, n).value, n, reason)])
  }

  function IndexOfId(ps: seq<AuthProfile>, id: string): (r: Option<nat>)
    ensures r.Some? ==> r.value < |ps| && ps[r.value].id == id
    ensures forall j :: 0 <= j < (if r.Some? then r.value else |ps|) ==> ps[j].id != id
  {
    if ps == [] then None
    else if ps[0].id == id then Some(0)
    else
      var r := IndexOfId(ps[1..], id);
      if r.None? then None else Some(r.value + 1)
  }

  function AddApiKey(st: Store, provider: string, key: string, lbl: string): Store {
    var id := provider + ":" + (if lbl == "" then "api_key" else lbl);
    match IndexOfId(st.profiles, id)
    case Some(i) => st.(profiles := st.profiles[i := st.profiles[i].(apiKey := key, lbl := lbl)])
    case None =>
      st.(profiles := st.profiles + [AuthProfile(
        id, provider, ApiKey, if lbl == "" then "API Key" else lbl, key, "", "", "", 0, "manual", 0)])
  }

  function AddOauth(st: Store, provider: string, access: string, refresh: string,
                    expiresAt: int, email: string): Store
  {
    var id := provider + ":" + (if email == "" then "oauth" else email);
    match IndexOfId(st.profiles, id)
    case Some(i) =>
      st.(profiles := st.profiles[i := st.profiles[i].(
        accessToken := access, refreshToken := refresh, expiresAt := expiresAt, email := email)])
    case None =>
      st.(profiles := st.profiles + [AuthProfile(
        id, provider, OAuth, if email == "" then "OAuth" else email,
        "", access, refresh, email, expiresAt, "browser_oauth", 0)])
  }

  // Imports look for an earlier import of the same source and provider, never at ids.
  predicate Imported(st: Store, source: string, provider: string) {
    exists i :: 0 <= i < |st.profiles| && st.profiles[i].source == source && st.profiles[i].provider == provider
  }

  function Import(st: Store, p: AuthProfile): Store {
    if (p.apiKey == "" && p.accessToken == "") || Imported(st, p.source, p.provider) then st
    else st.(profiles := st.profiles + [p])
  }

  function EnvProfile(envName: string, provider: string, value: string): AuthProfile {
    AuthProfile(provider + ":env", provider, ApiKey, envName, value, "", "", "", 0, "env", 0)
  }

  function ClaudeProfile(access: string, refresh: string, expiresAt: int): AuthProfile {
    AuthProfile("claude:claude_code", "claude", OAuth, "Claude Code",
                "", access, refresh, "", expiresAt, "claude_code_import", 0)
  }

  function GeminiProfile(access: string, refresh: string, expiresAt: int, email: string): AuthProfile {
    AuthProfile("gemini:" + (if email == "" then "google_oauth" else email), "gemini", OAuth,
                if email == "" then "Gemini CLI" else email,
                "", access, refresh, email, expiresAt, "gemini_import", 0)
  }

  // ---- Cooldown delays ----

  const INT64_MAX: int := 0x7fff_ffff_ffff_ffff
  const MINUTE: int := 60 * 1000
  const HOUR: int := 60 * MINUTE

  function Power(k: nat, n: nat): (r: nat)
    ensures k >= 1 ==> r >= 1
  {
    if n == 0 then 1 else k * Power(k, n - 1)
  }

  function Base(reason: CooldownReason): int {
    match reason
    case BillingError => 5 * HOUR
    case UnsupportedMethod => 24 * HOUR
    case _ => MINUTE
  }

  function Factor(reason: CooldownReason): nat {
    match reason
    case BillingError => 2
    case UnsupportedMethod => 1
    case _ => 5
  }

  function Cap(reason: CooldownReason): int {
    match reason
    case BillingError => 24 * HOUR
    case UnsupportedMethod => 24 * HOUR
    case _ => HOUR
  }

  // How many failures in a row the 64-bit product survives.
  function LastSafe(reason: CooldownReason): Option<int> {
    match reason
    case BillingError => Some(39)
    case UnsupportedMethod => None
    case _ => Some(21)
  }

  function Min(a: int, b: int): int {
    if a <= b then a else b
  }

  // min(base * factor^(n-1), cap), or None where the product overflows int64_t.
  function Delay(reason: CooldownReason, n: int): Option<int> {
    var safe := LastSafe(reason);
    if safe.Some? && n > safe.value then None
    else Some(Min(Base(reason) * Power(Factor(reason), if n < 1 then 0 else n - 1), Cap(reason)))
  }

  lemma {:induction false} PowerAdds(k: nat, m: nat, n: nat)
    ensures Power(k, m + n) == Power(k, m) * Power(k, n)
    decreases m
  {
    if m > 0 {
      PowerAdds(k, m - 1, n);
      MulAssoc(k, Power(k, m - 1), Power(k, n));
    }
  }

  lemma MulAssoc(a: nat, b: nat, c: nat)
    ensures a * (b * c) == a * b * c
  {
  }

  lemma {:induction false} PowerGrows(k: nat, m: nat, n: nat)
    requires k >= 1 && m <= n
    ensures Power(k, m) <= Power(k, n)
    decreases n
  {
    if m < n {
      PowerGrows(k, m, n - 1);
      assert 1 * Power(k, n - 1) <= k * Power(k, n - 1);
    }
  }

  lemma PowersOfFive()
    ensures Power(5, 20) == 95367431640625 && Power(5, 21) == 5 * 95367431640625
  {
    assert Power(5, 5) == 3125;
    PowerAdds(5, 5, 5);
    PowerAdds(5, 10, 10);
  }

  lemma PowersOfTwo()
    ensures Power(2, 38) == 0x40_0000_0000 && Power(2, 39) == 2 * 0x40_0000_0000
  {
    assert Power(2, 2) == 4;
    assert Power(2, 6) == 64;
    PowerAdds(2, 6, 6);
    PowerAdds(2, 12, 6);
    PowerAdds(2, 18, 18);
    PowerAdds(2, 2, 36);
  }

  lemma LastThatFits(reason: CooldownReason)
    requires LastSafe(reason).Some?
    ensures var k, last := Factor(reason), LastSafe(reason).value;
            k >= 1 && last >= 1 && Base(reason) > 0 &&
            Base(reason) * Power(k, last - 1) <= INT64_MAX < Base(reason) * Power(k, last)
  {
    PowersOfFive();
    PowersOfTwo();
  }

  // The product stays within int64_t exactly up to the last safe count.
  lemma FitsExactly(reason: CooldownReason, n: nat)
    requires n >= 1 && LastSafe(reason).Some?
    ensures Base(reason) * Power(Factor(reason), n - 1) <= INT64_MAX <==> n <= LastSafe(reason).value
  {
    var k, last := Factor(reason), LastSafe(reason).value;
    LastThatFits(reason);
    hide Base, Factor, LastSafe, INT64_MAX, Power;
    if n <= last {
      PowerGrows(k, n - 1, last - 1);
      MulGrows(Base(reason), Power(k, n - 1), Power(k, last - 1));
    } else {
      PowerGrows(k, last, n - 1);
      MulGrows(Base(reason), Power(k, last), Power(k, n - 1));
    }
  }

  lemma MulGrows(b: int, x: int, y: int)
    requires b > 0 && x <= y
    ensures b * x <= b * y
  {
  }

  // compute_cooldown_ms: the loop multiplies, then the cap is applied.
  method ComputeCooldown(reason: CooldownReason, consecutive: int) returns (r: Option<int>)
    ensures r == Delay(reason, consecutive)
  {
    if reason.UnsupportedMethod? {
      PowerOfOne(if consecutive < 1 then 0 else consecutive - 1);
      return Some(24 * HOUR);
    }
    var ms, i := Base(reason), 1;
    while i < consecutive
      invariant 1 <= i && (i <= consecutive || i == 1)
      invariant ms == Base(reason) * Power(Factor(reason), i - 1) <= INT64_MAX
    {
      assert ms * Factor(reason) == Base(reason) * Power(Factor(reason), i) by {
        var f, p := Factor(reason), Power(Factor(reason), i - 1);
        assert Base(reason) * p * f == Base(reason) * (f * p);
      }
      FitsExactly(reason, i + 1);
      if ms * Factor(reason) > INT64_MAX {
        return None;
      }
      ms, i := ms * Factor(reason), i + 1;
    }
    FitsExactly(reason, i);
    r := Some(Min(ms, Cap(reason)));
  }

  lemma {:induction false} PowerOfOne(n: nat)
    ensures Power(1, n) == 1
  {
    if n > 0 {
      PowerOfOne(n - 1);
    }
  }

  // More failures in a row never mean a shorter delay.
  lemma DelayGrows(reason: CooldownReason, m: int, n: int)
    requires m <= n && Delay(reason, n).Some?
    ensures Delay(reason, m).Some?
    ensures 0 < Delay(reason, m).value <= Delay(reason, n).value <= Cap(reason)
  {
    var k := Factor(reason);
    var em, en := if m < 1 then 0 else m - 1, if n < 1 then 0 else n - 1;
    PowerGrows(k, em, en);
    assert Base(reason) * 1 <= Base(reason) * Power(k, em) <= Base(reason) * Power(k, en);
  }
}
