/**
Which secret a resolution hands out: the choice in terms of the profiles' own fields, the secrets
added and imported over whole runs, and profiles that were removed.
*/
module AuthSecrets {
  import opened Text
  import opened AuthStore
  import opened AuthRuns

  // ---- The choice, field by field ----

  // Not cooling, and no sign-in that has run out.
  predicate Serves(st: Store, p: AuthProfile, provider: string, now: int) {
    && p.provider == provider
    && (p.id !in st.cooldowns || st.cooldowns[p.id].untilMs <= now)
    && (p.kind == ApiKey || p.expiresAt <= 0 || now < p.expiresAt)
  }

  predicate Imports(p: AuthProfile) {
    p.source in {"claude_code_import", "gemini_import"}
  }

  // The secret of the one profile the specification names, and no other, is handed out.
  lemma SecretOfChosen(st: Store, provider: string, now: int, i: nat)
    requires Chosen(st, provider, now, i)
    ensures i < |st.profiles|
    ensures var p := st.profiles[i];
            Resolve(st, provider, now) ==
            Some(if p.kind == OAuth then ResolvedAuth(p.id, provider, p.accessToken, true)
                 else ResolvedAuth(p.id, provider, p.apiKey, false))
  {
    assert Candidate(st, provider, now, i);
    PickMeetsSpec(st, provider, now);
  }

  // A resolution answers if and only if some profile of the provider serves.
  lemma AnswersExactly(st: Store, provider: string, now: int)
    ensures Resolve(st, provider, now).Some? <==> exists p :: p in st.profiles && Serves(st, p, provider, now)
  {
    PickMeetsSpec(st, provider, now);
    if p :| p in st.profiles && Serves(st, p, provider, now) {
      var i :| 0 <= i < |st.profiles| && st.profiles[i] == p;
      assert Eligible(st, provider, now, i);
    }
    if i :| 0 <= i < |st.profiles| && Eligible(st, provider, now, i) {
      assert st.profiles[i] in st.profiles;
    }
  }

  // What is chosen serves; it is no environment key while an imported sign-in serves.
  lemma ChosenServes(st: Store, provider: string, now: int, i: nat)
    requires Chosen(st, provider, now, i)
    ensures i < |st.profiles| && Serves(st, st.profiles[i], provider, now)
    ensures st.profiles[i].source == "env" ==>
              forall q :: q in st.profiles && Serves(st, q, provider, now) ==> !Imports(q)
  {
    forall q | q in st.profiles && Serves(st, q, provider, now) && Imports(q)
      ensures SignedInByCli(st, provider, now)
    {
      var j :| 0 <= j < |st.profiles| && st.profiles[j] == q;
      assert Eligible(st, provider, now, j) && CliImport(st.profiles[j]);
    }
  }

  // Without a pin: imports before other sign-ins before keys, then the one unused for longest,
  // then the one listed first. Only environment keys hidden by an import are passed over.
  lemma ChosenIsPreferred(st: Store, provider: string, now: int, i: nat, j: nat)
    requires st.pin == "" && Chosen(st, provider, now, i) && j < |st.profiles| && i != j
    requires Serves(st, st.profiles[j], provider, now)
    ensures i < |st.profiles|
    ensures var p, q := st.profiles[i], st.profiles[j];
            || (q.source == "env" && exists a :: a in st.profiles && Serves(st, a, provider, now) && Imports(a))
            || (Imports(p) && !Imports(q))
            || (Imports(p) == Imports(q) && p.kind == OAuth && q.kind == ApiKey)
            || (Imports(p) == Imports(q) && p.kind == q.kind && p.lastUsedAt < q.lastUsedAt)
            || (Imports(p) == Imports(q) && p.kind == q.kind && p.lastUsedAt == q.lastUsedAt && i < j)
  {
    assert Eligible(st, provider, now, j);
    if Candidate(st, provider, now, j) {
      assert Precedes(st.profiles, i, j);
    } else {
      var k :| 0 <= k < |st.profiles| && Eligible(st, provider, now, k) && CliImport(st.profiles[k]);
      assert st.profiles[k] in st.profiles;
    }
  }

  // A pin on a profile that serves is followed, unless an import hides it as an environment key.
  lemma PinIsFollowed(st: Store, provider: string, now: int, j: nat)
    requires j < |st.profiles| && Serves(st, st.profiles[j], provider, now)
    requires st.pin != "" && st.profiles[j].id == st.pin
    requires st.profiles[j].source == "env" ==>
               forall a :: a in st.profiles && Serves(st, a, provider, now) ==> !Imports(a)
    ensures Resolve(st, provider, now).Some? && Resolve(st, provider, now).value.profileId == st.pin
  {
    assert Eligible(st, provider, now, j);
    if SignedInByCli(st, provider, now) {
      var k :| 0 <= k < |st.profiles| && Eligible(st, provider, now, k) && CliImport(st.profiles[k]);
      assert st.profiles[k] in st.profiles;
    }
    assert Candidate(st, provider, now, j) && PinApplies(st, provider, now);
    PickMeetsSpec(st, provider, now);
    var i := Pick(st, provider, now).value;
    assert Chosen(st, provider, now, i);
  }

  // ---- Secrets that are added ----

  function KeyId(provider: string, lbl: string): string {
    provider + ":" + (if lbl == "" then "api_key" else lbl)
  }

  function SignInId(provider: string, email: string): string {
    provider + ":" + (if email == "" then "oauth" else email)
  }

  // An added key is what its profile hands out, unless the profile of that id is a sign-in: that
  // one goes on handing out its access token.
  lemma AddedKeyIsHandedOut(st: Store, provider: string, key: string, lbl: string, asked: string, now: int)
    ensures var st', id := AddApiKey(st, provider, key, lbl), KeyId(provider, lbl);
            var was, i := IndexOfId(st.profiles, id), IndexOfId(st'.profiles, id);
            && i.Some? && (was.Some? ==> i == was)
            && (Pick(st', asked, now) == i ==>
                  Resolve(st', asked, now).value.profileId == id &&
                  Resolve(st', asked, now).value.token ==
                  if was.Some? && st.profiles[was.value].kind.OAuth? then st.profiles[was.value].accessToken else key)
  {
    IndexAfter(st, AddApiKey(st, provider, key, lbl), KeyId(provider, lbl));
  }

  lemma AddedSignInIsHandedOut(st: Store, provider: string, access: string, refresh: string, expiresAt: int,
                               email: string, asked: string, now: int)
    ensures var st', id := AddOauth(st, provider, access, refresh, expiresAt, email), SignInId(provider, email);
            var was, i := IndexOfId(st.profiles, id), IndexOfId(st'.profiles, id);
            && i.Some? && (was.Some? ==> i == was) && st'.profiles[i.value].expiresAt == expiresAt
            && (Pick(st', asked, now) == i ==>
                  Resolve(st', asked, now).value.profileId == id &&
                  Resolve(st', asked, now).value.token ==
                  if was.Some? && st.profiles[was.value].kind.ApiKey? then st.profiles[was.value].apiKey else access)
  {
    IndexAfter(st, AddOauth(st, provider, access, refresh, expiresAt, email), SignInId(provider, email));
  }

  // A profile added for the first time was never used, belongs to its provider and is no import.
  lemma NewProfiles(st: Store, provider: string, secret: string, refresh: string, expiresAt: int, name: string)
    ensures IndexOfId(st.profiles, KeyId(provider, name)).None? ==>
            var st' := AddApiKey(st, provider, secret, name);
            var p := st'.profiles[|st.profiles|];
            && |st'.profiles| == |st.profiles| + 1 && st'.profiles[..|st.profiles|] == st.profiles
            && p.provider == provider && p.kind == ApiKey && p.lastUsedAt == 0 && p.source == "manual"
            && p.lbl == (if name == "" then "API Key" else name)
            && p.accessToken == p.refreshToken == p.email == "" && p.expiresAt == 0
    ensures IndexOfId(st.profiles, SignInId(provider, name)).None? ==>
            var st' := AddOauth(st, provider, secret, refresh, expiresAt, name);
            var p := st'.profiles[|st.profiles|];
            && |st'.profiles| == |st.profiles| + 1 && st'.profiles[..|st.profiles|] == st.profiles
            && p.provider == provider && p.kind == OAuth && p.lastUsedAt == 0 && p.source == "browser_oauth"
            && p.lbl == (if name == "" then "OAuth" else name)
            && p.apiKey == "" && p.refreshToken == refresh && p.email == name && p.expiresAt == expiresAt
  {
    hide IndexOfId;
  }

  // The first profile of an id stays the first one when it is rewritten or first appended.
  lemma IndexAfter(st: Store, st': Store, id: string)
    requires var was := IndexOfId(st.profiles, id);
             if was.Some?
             then |st'.profiles| == |st.profiles| && st'.profiles[was.value].id == id &&
                  forall j :: 0 <= j < was.value ==> st'.profiles[j] == st.profiles[j]
             else |st'.profiles| == |st.profiles| + 1 && st'.profiles[|st.profiles|].id == id &&
                  forall j :: 0 <= j < |st.profiles| ==> st'.profiles[j] == st.profiles[j]
    ensures var was := IndexOfId(st.profiles, id);
            IndexOfId(st'.profiles, id) == Some(if was.Some? then was.value else |st.profiles|)
  {
    hide IndexOfId;
  }

  // A key added under the label of an earlier sign-in is stored and never handed out.
  lemma KeyOverSignInIsIgnored(now: int)
    ensures var st := AddOauth(Store([], map[], map[], ""), "claude", "tok", "ref", 0, "work");
            Resolve(AddApiKey(st, "claude", "sk-new", "work"), "claude", now) ==
            Some(ResolvedAuth("claude:work", "claude", "tok", true))
  {
    var st := AddOauth(Store([], map[], map[], ""), "claude", "tok", "ref", 0, "work");
    assert st.profiles[0].id == "claude:work";
    var st' := AddApiKey(st, "claude", "sk-new", "work");
    assert |st'.profiles| == 1 && st'.profiles[0] == st.profiles[0].(apiKey := "sk-new", lbl := "work");
    assert Eligible(st', "claude", now, 0) && Candidate(st', "claude", now, 0);
    assert BestBefore(st', "claude", now, 1) == Some(0) by {
      assert BestBefore(st', "claude", now, 0) == None;
    }
  }

  // ---- Secrets over whole runs ----

  // The event gives a profile of that id the secret that is handed out for it.
  predicate Supplies(e: Event, auth: ResolvedAuth) {
    match e.op
    case KeyAdded(provider, key, lbl) => auth.profileId == KeyId(provider, lbl) && auth.token == key && !auth.isOauth
    case OauthAdded(provider, access, _, _, email) =>
      auth.profileId == SignInId(provider, email) && auth.token == access && auth.isOauth
    case EnvImported(_, provider, value) =>
      auth == ResolvedAuth(provider + ":env", provider, value, false)
    case ClaudeImported(access, _, _) => auth == ResolvedAuth("claude:claude_code", "claude", access, true)
    case GeminiImported(access, _, _, email) =>
      auth == ResolvedAuth("gemini:" + (if email == "" then "google_oauth" else email), "gemini", access, true)
    case _ => false
  }

  predicate SuppliedAt(log: seq<Event>, k: nat, auth: ResolvedAuth) {
    k < |log| && Supplies(log[k], auth) && forall m :: k <= m < |log| ==> log[m].op != Removed(auth.profileId)
  }

  predicate Supplied(log: seq<Event>, auth: ResolvedAuth) {
    exists k: nat :: k < |log| && SuppliedAt(log, k, auth)
  }

  lemma SuppliedLonger(log: seq<Event>, e: Event, auth: ResolvedAuth)
    requires Supplied(log, auth) && e.op != Removed(auth.profileId)
    ensures Supplied(log + [e], auth)
  {
    var k: nat :| k < |log| && SuppliedAt(log, k, auth);
    assert SuppliedAt(log + [e], k, auth);
  }

  lemma SuppliedJustNow(log: seq<Event>, e: Event, auth: ResolvedAuth)
    requires Supplies(e, auth)
    ensures Supplied(log + [e], auth)
  {
    assert SuppliedAt(log + [e], |log|, auth);
  }

  predicate HeldBefore(st: Store, auth: ResolvedAuth) {
    exists j :: 0 <= j < |st.profiles| && Resolved(st.profiles[j]) == auth
  }

  // Removal and use bring no new secret, and removal leaves none of that id.
  lemma RemovalSecrets(st: Store, id: string, i: nat)
    requires i < |Remove(st, id).profiles|
    ensures var p := Remove(st, id).profiles[i];
            p.id != id && HeldBefore(st, Resolved(p))
  {
    hide Resolved;
    RemovedIsGone(st.profiles, id);
    var p := Remove(st, id).profiles[i];
    assert p in WithoutId(st.profiles, id);
    var j :| 0 <= j < |st.profiles| && st.profiles[j] == p;
  }

  lemma SuccessSecrets(st: Store, id: string, now: int, i: nat)
    requires i < |st.profiles|
    ensures Resolved(Succeed(st, id, now).profiles[i]) == Resolved(st.profiles[i])
  {
    match IndexOfId(st.profiles, id)
    case Some(n) => TouchOne(st.profiles, n, now);
    case None => TouchNone(st.profiles, id, now);
  }

  lemma KeySecrets(st: Store, e: Event, i: nat)
    requires e.op.KeyAdded? && i < |AddApiKey(st, e.op.provider, e.op.key, e.op.lbl).profiles|
    ensures var auth := Resolved(AddApiKey(st, e.op.provider, e.op.key, e.op.lbl).profiles[i]);
            Supplies(e, auth) || (i < |st.profiles| && Resolved(st.profiles[i]) == auth)
  {
    hide IndexOfId;
  }

  lemma SignInSecrets(st: Store, e: Event, i: nat)
    requires e.op.OauthAdded?
    requires i < |AddOauth(st, e.op.provider, e.op.access, e.op.refresh, e.op.expiresAt, e.op.email).profiles|
    ensures var st' := AddOauth(st, e.op.provider, e.op.access, e.op.refresh, e.op.expiresAt, e.op.email);
            var auth := Resolved(st'.profiles[i]);
            Supplies(e, auth) || (i < |st.profiles| && Resolved(st.profiles[i]) == auth)
  {
    hide IndexOfId;
  }

  // One event: whatever a profile hands out afterwards it did before, or the event supplied it.
  lemma SecretsComeFrom(st: Store, e: Event, i: nat)
    requires Defined(st, e) && i < |Apply(st, e).profiles|
    ensures var auth := Resolved(Apply(st, e).profiles[i]);
            (e.op != Removed(auth.profileId) && HeldBefore(st, auth)) || Supplies(e, auth)
  {
    match e.op
    case Removed(id) => RemovalSecrets(st, id, i);
    case Succeeded(id) => SuccessSecrets(st, id, e.now, i);
    case KeyAdded(_, _, _) => KeySecrets(st, e, i);
    case OauthAdded(_, _, _, _, _) => SignInSecrets(st, e, i);
    case _ =>
      hide FailureDefined, Delay, Imported;
      assert i < |st.profiles| ==> Apply(st, e).profiles[i] == st.profiles[i];
  }

  // Over every run from a store without profiles: each profile hands out a secret that some event
  // supplied for its id, and that id was not removed since.
  lemma {:induction false} SecretsWereSupplied(st: Store, log: seq<Event>, i: nat)
    requires st.profiles == [] && After(st, log).Some? && i < |After(st, log).value.profiles|
    ensures Supplied(log, Resolved(After(st, log).value.profiles[i]))
    decreases |log|
  {
    hide Apply, Supplies, Supplied;
    if log != [] {
      var n := |log| - 1;
      var before, e := After(st, log[..n]).value, log[n];
      assert log[..n] + [e] == log;
      var auth := Resolved(Apply(before, e).profiles[i]);
      SecretsComeFrom(before, e, i);
      if Supplies(e, auth) {
        SuppliedJustNow(log[..n], e, auth);
      } else {
        var j :| 0 <= j < |before.profiles| && Resolved(before.profiles[j]) == auth;
        SecretsWereSupplied(st, log[..n], j);
        SuppliedLonger(log[..n], e, auth);
      }
    }
  }

  // So no resolution, with or without fallback, invents, mixes up or revives a secret.
  lemma HandedOutWasSupplied(st: Store, log: seq<Event>, provider: string, now: int)
    requires st.profiles == [] && After(st, log).Some?
    ensures var store := After(st, log).value;
            forall auth :: Resolve(store, provider, now) == Some(auth) ||
                           ResolveWithFallback(store, provider, now) == Some(auth) ==>
              Supplied(log, auth)
  {
    hide Supplied, After;
    var store := After(st, log).value;
    forall auth | Resolve(store, provider, now) == Some(auth) || ResolveWithFallback(store, provider, now) == Some(auth)
      ensures Supplied(log, auth)
    {
      var asked := provider;
      if Resolve(store, provider, now) != Some(auth) {
        var k := FirstResolvedIsFirst(store, ChainOf(store, provider), now);
        asked := ChainOf(store, provider)[k];
      }
      SecretsWereSupplied(st, log, Pick(store, asked, now).value);
    }
  }

  // ---- Imports ----

  // What the two programs' sign-ins and the environment bring in.
  lemma ImportedProfiles(envName: string, provider: string, secret: string, refresh: string, expiresAt: int,
                         email: string)
    ensures var p := ClaudeProfile(secret, refresh, expiresAt);
            && p.provider == "claude" && p.source == "claude_code_import" && p.kind == OAuth && p.lbl == "Claude Code"
            && p.accessToken == secret && p.refreshToken == refresh && p.expiresAt == expiresAt && p.email == ""
            && p.apiKey == "" && p.lastUsedAt == 0
    ensures var p := GeminiProfile(secret, refresh, expiresAt, email);
            && p.provider == "gemini" && p.source == "gemini_import" && p.kind == OAuth
            && p.lbl == (if email == "" then "Gemini CLI" else email) && p.email == email
            && p.accessToken == secret && p.refreshToken == refresh && p.expiresAt == expiresAt
            && p.apiKey == "" && p.lastUsedAt == 0
    ensures var p := EnvProfile(envName, provider, secret);
            && p.provider == provider && p.source == "env" && p.kind == ApiKey && p.lbl == envName && p.apiKey == secret
            && p.accessToken == p.refreshToken == p.email == "" && p.expiresAt == 0 && p.lastUsedAt == 0
  {
  }

  // A first import with a secret is appended; one without a secret, or a second of its source,
  // changes nothing.
  lemma ImportsExactly(st: Store, p: AuthProfile)
    ensures var seen := exists q :: q in st.profiles && q.source == p.source && q.provider == p.provider;
            && ((p.apiKey == "" && p.accessToken == "") || seen ==> Import(st, p) == st)
            && ((p.apiKey != "" || p.accessToken != "") && !seen ==> Import(st, p) == st.(profiles := st.profiles + [p]))
  {
    if i :| 0 <= i < |st.profiles| && st.profiles[i].source == p.source && st.profiles[i].provider == p.provider {
      assert st.profiles[i] in st.profiles;
    }
  }

  predicate IsImport(source: string) {
    source in {"env", "claude_code_import", "gemini_import"}
  }

  predicate Clash(p: AuthProfile, q: AuthProfile) {
    IsImport(p.source) && p.source == q.source && p.provider == q.provider
  }

  predicate OnePerSource(ps: seq<AuthProfile>) {
    forall i, j :: 0 <= i < j < |ps| ==> !Clash(ps[i], ps[j])
  }

  lemma OneMoreSource(p: AuthProfile, ps: seq<AuthProfile>)
    ensures OnePerSource([p] + ps) <==> OnePerSource(ps) && forall q :: q in ps ==> !Clash(p, q)
  {
    hide Clash;
    var all := [p] + ps;
    assert forall i :: 0 <= i < |ps| ==> all[i + 1] == ps[i];
    if OnePerSource(all) {
      forall i, j | 0 <= i < j < |ps| ensures !Clash(ps[i], ps[j]) {
        assert !Clash(all[i + 1], all[j + 1]);
      }
      forall q | q in ps ensures !Clash(p, q) {
        var j :| 0 <= j < |ps| && ps[j] == q;
        assert !Clash(all[0], all[j + 1]);
      }
    }
  }

  lemma {:induction false} RemovalKeepsOnePerSource(ps: seq<AuthProfile>, id: string)
    requires OnePerSource(ps)
    ensures OnePerSource(WithoutId(ps, id))
    decreases |ps|
  {
    hide Clash, OnePerSource;
    if ps == [] {
      assert WithoutId(ps, id) == ps;
    } else {
      var rest := ps[1..];
      assert ps == [ps[0]] + rest;
      OneMoreSource(ps[0], rest);
      RemovalKeepsOnePerSource(rest, id);
      RemovedIsGone(rest, id);
      OneMoreSource(ps[0], WithoutId(rest, id));
      assert [] + WithoutId(rest, id) == WithoutId(rest, id);
    }
  }

  lemma StepKeepsOnePerSource(st: Store, e: Event)
    requires OnePerSource(st.profiles) && Defined(st, e)
    ensures OnePerSource(Apply(st, e).profiles)
  {
    match e.op
    case Removed(id) => RemovalKeepsOnePerSource(st.profiles, id);
    case Succeeded(id) =>
      match IndexOfId(st.profiles, id) {
        case Some(n) => TouchOne(st.profiles, n, e.now);
        case None => TouchNone(st.profiles, id, e.now);
      }
    case EnvImported(envName, provider, value) => ImportKeepsOnePerSource(st, EnvProfile(envName, provider, value));
    case ClaudeImported(access, refresh, expiresAt) =>
      ImportKeepsOnePerSource(st, ClaudeProfile(access, refresh, expiresAt));
    case GeminiImported(access, refresh, expiresAt, email) =>
      ImportKeepsOnePerSource(st, GeminiProfile(access, refresh, expiresAt, email));
    case KeyAdded(provider, key, lbl) => AdditionKeepsOnePerSource(st, Apply(st, e));
    case OauthAdded(_, _, _, _, _) => AdditionKeepsOnePerSource(st, Apply(st, e));
    case _ => hide FailureDefined, Delay;
  }

  lemma ImportKeepsOnePerSource(st: Store, p: AuthProfile)
    requires OnePerSource(st.profiles)
    ensures OnePerSource(Import(st, p).profiles)
  {
  }

  lemma AdditionKeepsOnePerSource(st: Store, st': Store)
    requires OnePerSource(st.profiles) && |st.profiles| <= |st'.profiles| <= |st.profiles| + 1
    requires forall i :: 0 <= i < |st.profiles| ==>
               st'.profiles[i].source == st.profiles[i].source && st'.profiles[i].provider == st.profiles[i].provider
    requires |st'.profiles| > |st.profiles| ==> !IsImport(st'.profiles[|st.profiles|].source)
    ensures OnePerSource(st'.profiles)
  {
  }

  // Over every run from a store without profiles: one import per source and provider.
  lemma {:induction false} ImportedOnce(st: Store, log: seq<Event>)
    requires st.profiles == [] && After(st, log).Some?
    ensures OnePerSource(After(st, log).value.profiles)
    decreases |log|
  {
    hide Apply;
    if log != [] {
      var n := |log| - 1;
      ImportedOnce(st, log[..n]);
      StepKeepsOnePerSource(After(st, log[..n]).value, log[n]);
    }
  }

  // A fresh sign-in imported into a store that has none is what resolution hands out, whatever
  // keys there are.
  lemma ImportedSignInWins(st: Store, p: AuthProfile, now: int)
    requires Imports(p) && p.kind == OAuth && p.accessToken != "" && (p.expiresAt <= 0 || now < p.expiresAt)
    requires st.pin == "" && !CooledDown(st, p.id, now) && forall q :: q in st.profiles ==> !Imports(q)
    ensures Resolve(Import(st, p), p.provider, now) == Some(ResolvedAuth(p.id, p.provider, p.accessToken, true))
  {
    ImportsExactly(st, p);
    var st', n := Import(st, p), |st.profiles|;
    assert Eligible(st', p.provider, now, n) && Candidate(st', p.provider, now, n);
    assert forall i :: 0 <= i < n ==> st'.profiles[i] in st.profiles;
    assert First(st', p.provider, now, n) && !PinApplies(st', p.provider, now);
    SecretOfChosen(st', p.provider, now, n);
  }

  // ---- Removal ----

  // Exactly the profiles of that id are gone.
  lemma {:induction false} RemovedIsGone(ps: seq<AuthProfile>, id: string)
    ensures forall p :: p in WithoutId(ps, id) <==> p in ps && p.id != id
    decreases |ps|
  {
    if ps != [] {
      RemovedIsGone(ps[1..], id);
      assert ps == [ps[0]] + ps[1..];
    }
  }

  // The others stay in their order.
  lemma {:induction false} RemovalKeepsOrder(a: seq<AuthProfile>, b: seq<AuthProfile>, id: string)
    ensures WithoutId(a + b, id) == WithoutId(a, id) + WithoutId(b, id)
    ensures (forall p :: p in a ==> p.id != id) ==> WithoutId(a, id) == a
    decreases |a|
  {
    if a == [] {
      assert a + b == b;
    } else {
      assert (a + b)[1..] == a[1..] + b && a == [a[0]] + a[1..];
      RemovalKeepsOrder(a[1..], b, id);
    }
  }

  // A removed profile resolves nowhere, and neither its cooldown nor a pin on it is left.
  lemma RemovedNeverResolves(st: Store, id: string, provider: string, now: int)
    ensures var st' := Remove(st, id);
            && id !in st'.cooldowns && (st.pin == id ==> st'.pin == "") && (st.pin != id ==> st'.pin == st.pin)
            && (forall other :: other in st.cooldowns && other != id ==>
                  other in st'.cooldowns && st'.cooldowns[other] == st.cooldowns[other])
            && st'.chains == st.chains
            && forall auth :: Resolve(st', provider, now) == Some(auth) ||
                              ResolveWithFallback(st', provider, now) == Some(auth) ==>
                 auth.profileId != id
  {
    var st' := Remove(st, id);
    RemovedIsGone(st.profiles, id);
    forall auth | Resolve(st', provider, now) == Some(auth) || ResolveWithFallback(st', provider, now) == Some(auth)
      ensures auth.profileId != id
    {
      var asked := provider;
      if Resolve(st', provider, now) != Some(auth) {
        var k := FirstResolvedIsFirst(st', ChainOf(st', provider), now);
        asked := ChainOf(st', provider)[k];
      }
      assert st'.profiles[Pick(st', asked, now).value] in st'.profiles;
    }
  }

  // ---- The ladder of cooldowns ----

  lemma CooldownLadder(n: int)
    ensures var minutes := if n <= 1 then 1 else if n == 2 then 5 else if n == 3 then 25 else 60;
            var hours := if n <= 1 then 5 else if n == 2 then 10 else if n == 3 then 20 else 24;
            && Delay(RateLimit, n) == Delay(AuthError, n) == (if n <= 21 then Some(minutes * 60_000) else None)
            && Delay(BillingError, n) == (if n <= 39 then Some(hours * 3_600_000) else None)
            && Delay(UnsupportedMethod, n) == Some(24 * 3_600_000)
  {
    assert Power(5, 0) == 1 && Power(5, 1) == 5 && Power(5, 2) == 25 && Power(5, 3) == 125;
    assert Power(2, 0) == 1 && Power(2, 1) == 2 && Power(2, 2) == 4 && Power(2, 3) == 8;
    PowerOfOne(if n < 1 then 0 else n - 1);
    if n >= 4 {
      PowerGrows(5, 3, n - 1);
      PowerGrows(2, 3, n - 1);
    }
  }
}
