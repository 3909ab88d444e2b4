/**
Saving the credential store to JSON and loading it into a new one.
*/
module AuthPersistence {
  import opened Text
  import opened JsonValue
  import opened AuthStore
  import AuthRuns

  const DEFAULT_CHAINS: map<string, seq<string>> := map[
    "claude" := ["openai", "gemini", "ollama"],
    "anthropic" := ["openai", "gemini", "ollama"],
    "openai" := ["claude", "gemini", "ollama"],
    "gemini" := ["claude", "openai", "ollama"],
    "ollama" := ["claude", "openai", "gemini"]]

  // What the constructor starts from before it loads the file.
  const NEW_STORE: Store := Store([], DEFAULT_CHAINS, map[], "")

  // ---- Writing ----

  function ProfileJson(p: AuthProfile): Json {
    var m := map["id" := Str(p.id), "provider" := Str(p.provider),
                 "type" := Str(if p.kind.OAuth? then "oauth" else "api_key"), "label" := Str(p.lbl),
                 "source" := Str(p.source), "last_used_at" := Int(p.lastUsedAt)];
    var m := PutIf(m, p.apiKey != "", "api_key", Str(p.apiKey));
    var m := PutIf(m, p.accessToken != "", "access_token", Str(p.accessToken));
    var m := PutIf(m, p.refreshToken != "", "refresh_token", Str(p.refreshToken));
    var m := PutIf(m, p.email != "", "email", Str(p.email));
    Obj(PutIf(m, p.expiresAt > 0, "expires_at", Int(p.expiresAt)))
  }

  // Environment keys are not written.
  function ProfilesJson(ps: seq<AuthProfile>): seq<Json> {
    if ps == [] then []
    else
      var last := ps[|ps| - 1];
      ProfilesJson(ps[..|ps| - 1]) + (if last.source == "env" then [] else [ProfileJson(last)])
  }

  function ReasonName(r: CooldownReason): string {
    match r
    case AuthError => "auth"
    case BillingError => "billing"
    case UnsupportedMethod => "unsupported_method"
    case RateLimit => "rate_limit"
  }

  function EntryJson(e: CooldownEntry): Json {
    Obj(map["until_ms" := Int(e.untilMs), "consecutive" := Int(e.consecutive),
            "reason" := Str(ReasonName(e.reason))])
  }

  function ChainJson(chain: seq<string>): Json {
    Arr(seq(|chain|, i requires 0 <= i < |chain| => Str(chain[i])))
  }

  function MapJson<T>(m: map<string, T>, write: T -> Json): Json {
    Obj(map k | k in m :: write(m[k]))
  }

  function StoreJson(st: Store): Json {
    Obj(map[
      "version" := Int(1),
      "profiles" := Arr(ProfilesJson(st.profiles)),
      "fallback_chains" := MapJson(st.chains, ChainJson),
      "cooldowns" := MapJson(st.cooldowns, EntryJson)])
  }

  // ---- Reading; None where a member has an unexpected type ----

  function LoadProfile(j: Json): Option<AuthProfile> {
    var id, provider := j.StrValue("id", ""), j.StrValue("provider", "");
    var kind, lbl := j.StrValue("type", ""), j.StrValue("label", "");
    var apiKey, access := j.StrValue("api_key", ""), j.StrValue("access_token", "");
    var refresh, email := j.StrValue("refresh_token", ""), j.StrValue("email", "");
    var expires, source := j.IntValue("expires_at", 0), j.StrValue("source", "");
    var used := j.IntValue("last_used_at", 0);
    if id.None? || provider.None? || kind.None? || lbl.None? || apiKey.None? || access.None? ||
       refresh.None? || email.None? || expires.None? || source.None? || used.None? then None
    else Some(AuthProfile(
      id.value, provider.value, if kind.value == "oauth" then OAuth else ApiKey, lbl.value,
      apiKey.value, access.value, refresh.value, email.value, expires.value, source.value, used.value))
  }

  // What a loop has read when it ends or an exception stops it.
  datatype Progress<+T> = Progress(read: T, ok: bool)

  function LoadProfiles(items: seq<Json>): Progress<seq<AuthProfile>> {
    if items == [] then Progress([], true)
    else
      var earlier := LoadProfiles(items[..|items| - 1]);
      var last := LoadProfile(items[|items| - 1]);
      if !earlier.ok || last.None? then earlier.(ok := false)
      else Progress(earlier.read + [last.value], true)
  }

  function ReasonOf(name: string): CooldownReason {
    if name == "auth" then AuthError
    else if name == "billing" then BillingError
    else if name == "unsupported_method" then UnsupportedMethod
    else RateLimit
  }

  function LoadEntry(j: Json): Option<CooldownEntry> {
    var untilMs, n, reason :=
      j.IntValue("until_ms", 0), j.IntValue("consecutive", 0), j.StrValue("reason", "rate_limit");
    if untilMs.None? || n.None? || reason.None? then None
    else Some(CooldownEntry(untilMs.value, n.value, ReasonOf(reason.value)))
  }

  function LoadChain(j: Json): Option<seq<string>> {
    if !j.Arr? || exists i :: 0 <= i < |j.items| && !j.items[i].Str? then None
    else Some(seq(|j.items|, i requires 0 <= i < |j.items| => j.items[i].s))
  }

  function LoadEntries<T>(into: map<string, T>, entries: seq<(string, Json)>, load: Json -> Option<T>): Progress<map<string, T>> {
    if entries == [] then Progress(into, true)
    else
      var earlier := LoadEntries(into, entries[..|entries| - 1], load);
      var last := entries[|entries| - 1];
      if !earlier.ok || load(last.1).None? then earlier.(ok := false)
      else Progress(earlier.read[last.0 := load(last.1).value], true)
  }

  function LoadMember<T>(into: map<string, T>, j: Json, key: string, load: Json -> Option<T>): Progress<map<string, T>> {
    if j.Contains(key) then LoadEntries(into, j.fields[key].Entries(), load) else Progress(into, true)
  }

  // load_from_json into an existing store: profiles are replaced, the maps are updated, and an
  // exception leaves what was read before it.
  function LoadJson(st: Store, j: Json): Progress<Store> {
    var profiles :=
      if j.Contains("profiles") then LoadProfiles(j.fields["profiles"].Elements()) else Progress(st.profiles, true);
    var st := st.(profiles := profiles.read);
    if !profiles.ok then Progress(st, false)
    else
      var chains := LoadMember(st.chains, j, "fallback_chains", LoadChain);
      var st := st.(chains := chains.read);
      if !chains.ok then Progress(st, false)
      else
        var cooldowns := LoadMember(st.cooldowns, j, "cooldowns", LoadEntry);
        Progress(st.(cooldowns := cooldowns.read), cooldowns.ok)
  }

  // ---- The loops ----

  method ToJson(store: AuthProfileStore) returns (j: Json)
    ensures j == StoreJson(store.View())
  {
    var items := [];
    for n := 0 to |store.profiles|
      invariant items == ProfilesJson(store.profiles[..n])
    {
      assert store.profiles[..n + 1][..n] == store.profiles[..n];
      if store.profiles[n].source != "env" {
        items := items + [ProfileJson(store.profiles[n])];
      }
    }
    assert store.profiles[..|store.profiles|] == store.profiles;
    j := Obj(map[
      "version" := Int(1),
      "profiles" := Arr(items),
      "fallback_chains" := MapJson(store.chains, ChainJson),
      "cooldowns" := MapJson(store.cooldowns, EntryJson)]);
  }

  // False where an unexpected type makes the source throw.
  method LoadFromJson(store: AuthProfileStore, j: Json) returns (ok: bool)
    modifies store
    ensures Progress(store.View(), ok) == LoadJson(old(store.View()), j)
  {
    hide LoadProfile, LoadEntries, LoadChain, LoadEntry;
    if j.Contains("profiles") {
      var items := j.fields["profiles"].Elements();
      store.profiles := [];
      for n := 0 to |items|
        invariant LoadProfiles(items[..n]) == Progress(store.profiles, true)
        invariant store.View() == old(store.View()).(profiles := store.profiles)
      {
        assert items[..n + 1][..n] == items[..n];
        var p := LoadProfile(items[n]);
        if p.None? {
          ProfilesStopAt(items, n + 1);
          return false;
        }
        store.profiles := store.profiles + [p.value];
      }
      assert items[..|items|] == items;
    }
    var chains := ReadMember(store.chains, j, "fallback_chains", LoadChain);
    store.chains := chains.read;
    if !chains.ok {
      return false;
    }
    var cooldowns := ReadMember(store.cooldowns, j, "cooldowns", LoadEntry);
    store.cooldowns := cooldowns.read;
    ok := cooldowns.ok;
  }

  method ReadMember<T>(into: map<string, T>, j: Json, key: string, load: Json -> Option<T>) returns (r: Progress<map<string, T>>)
    ensures r == LoadMember(into, j, key, load)
  {
    if !j.Contains(key) {
      return Progress(into, true);
    }
    var entries, read := j.fields[key].Entries(), into;
    for n := 0 to |entries|
      invariant LoadEntries(into, entries[..n], load) == Progress(read, true)
    {
      assert entries[..n + 1][..n] == entries[..n];
      var value := load(entries[n].1);
      if value.None? {
        EntriesStopAt(into, entries, n + 1, load);
        return Progress(read, false);
      }
      read := read[entries[n].0 := value.value];
    }
    assert entries[..|entries|] == entries;
    r := Progress(read, true);
  }

  lemma {:induction false} ProfilesStopAt(items: seq<Json>, n: nat)
    requires n <= |items| && !LoadProfiles(items[..n]).ok
    ensures LoadProfiles(items) == LoadProfiles(items[..n])
    decreases |items| - n
  {
    if n < |items| {
      assert items[..n + 1][..n] == items[..n];
      ProfilesStopAt(items, n + 1);
    } else {
      assert items[..n] == items;
    }
  }

  lemma {:induction false} EntriesStopAt<T>(into: map<string, T>, entries: seq<(string, Json)>, n: nat, load: Json -> Option<T>)
    requires n <= |entries| && !LoadEntries(into, entries[..n], load).ok
    ensures LoadEntries(into, entries, load) == LoadEntries(into, entries[..n], load)
    decreases |entries| - n
  {
    if n < |entries| {
      assert entries[..n + 1][..n] == entries[..n];
      EntriesStopAt(into, entries, n + 1, load);
    } else {
      assert entries[..n] == entries;
    }
  }

  // ---- Round trip ----

  // A profile as a reload gives it back: non-positive expiry times all mean "never".
  function Normal(p: AuthProfile): AuthProfile {
    p.(expiresAt := if p.expiresAt > 0 then p.expiresAt else 0)
  }

  function Kept(ps: seq<AuthProfile>): seq<AuthProfile> {
    if ps == [] then []
    else
      var last := ps[|ps| - 1];
      Kept(ps[..|ps| - 1]) + (if last.source == "env" then [] else [Normal(last)])
  }

  lemma MembersBack(p: AuthProfile)
    ensures var j := ProfileJson(p);
            && j.StrValue("id", "") == Some(p.id) && j.StrValue("provider", "") == Some(p.provider)
            && j.StrValue("type", "") == Some(if p.kind.OAuth? then "oauth" else "api_key")
  {
  }

  lemma MoreMembersBack(p: AuthProfile)
    ensures var j := ProfileJson(p);
            && j.StrValue("label", "") == Some(p.lbl) && j.StrValue("source", "") == Some(p.source)
            && j.IntValue("last_used_at", 0) == Some(p.lastUsedAt)
  {
  }

  lemma OptionalMembersBack(p: AuthProfile)
    ensures var j := ProfileJson(p);
            && j.StrValue("api_key", "") == Some(p.apiKey)
            && j.StrValue("access_token", "") == Some(p.accessToken)
            && j.StrValue("refresh_token", "") == Some(p.refreshToken)
            && j.StrValue("email", "") == Some(p.email)
            && j.IntValue("expires_at", 0) == Some(Normal(p).expiresAt)
  {
  }

  lemma ProfileRoundTrip(p: AuthProfile)
    ensures LoadProfile(ProfileJson(p)) == Some(Normal(p))
  {
    hide ProfileJson;
    MembersBack(p);
    MoreMembersBack(p);
    OptionalMembersBack(p);
  }

  lemma {:induction false} ProfilesRoundTrip(ps: seq<AuthProfile>)
    ensures LoadProfiles(ProfilesJson(ps)) == Progress(Kept(ps), true)
  {
    hide LoadProfile, ProfileJson;
    if ps != [] {
      var earlier, last := ps[..|ps| - 1], ps[|ps| - 1];
      ProfilesRoundTrip(earlier);
      if last.source != "env" {
        ProfileRoundTrip(last);
        var js := ProfilesJson(earlier) + [ProfileJson(last)];
        assert js[..|js| - 1] == ProfilesJson(earlier);
      } else {
        assert ProfilesJson(ps) == ProfilesJson(earlier) && Kept(ps) == Kept(earlier);
      }
    }
  }

  ghost function KeysOf(entries: seq<(string, Json)>): set<string> {
    set i | 0 <= i < |entries| :: entries[i].0
  }

  ghost function Restrict<T>(m: map<string, T>, keys: set<string>): map<string, T> {
    map k | k in m && k in keys :: m[k]
  }

  lemma OneMoreKey<T>(into: map<string, T>, m: map<string, T>, keys: set<string>, k: string)
    requires k in m
    ensures (into + Restrict(m, keys))[k := m[k]] == into + Restrict(m, keys + {k})
  {
  }

  // Entries that load to the values of a map put these values in.
  lemma {:induction false} EntriesLoad<T>(into: map<string, T>, m: map<string, T>, entries: seq<(string, Json)>, load: Json -> Option<T>)
    requires forall i :: 0 <= i < |entries| ==> entries[i].0 in m && load(entries[i].1) == Some(m[entries[i].0])
    ensures LoadEntries(into, entries, load) == Progress(into + Restrict(m, KeysOf(entries)), true)
    decreases |entries|
  {
    hide Restrict;
    if entries == [] {
      assert KeysOf(entries) == {};
      NothingRestricted(into, m);
    } else {
      var n := |entries| - 1;
      EntriesLoad(into, m, entries[..n], load);
      assert KeysOf(entries) == KeysOf(entries[..n]) + {entries[n].0};
      OneMoreKey(into, m, KeysOf(entries[..n]), entries[n].0);
    }
  }

  lemma NothingRestricted<T>(into: map<string, T>, m: map<string, T>)
    ensures into + Restrict(m, {}) == into
  {
  }

  lemma EntryOfMap<T>(m: map<string, T>, write: T -> Json, i: nat)
    requires i < |MapJson(m, write).Entries()|
    ensures var e := MapJson(m, write).Entries()[i]; e.0 in m && e.1 == write(m[e.0])
  {
    var keys := SortedKeys(MapJson(m, write).fields.Keys);
    assert keys[i] in keys;
  }

  lemma AllKeysWritten<T>(m: map<string, T>, write: T -> Json)
    ensures m.Keys <= KeysOf(MapJson(m, write).Entries())
  {
    var entries := MapJson(m, write).Entries();
    var keys := SortedKeys(MapJson(m, write).fields.Keys);
    forall k | k in m ensures k in KeysOf(entries) {
      assert k in keys;
      var i :| 0 <= i < |keys| && keys[i] == k;
      assert entries[i].0 == k;
    }
  }

  lemma MapRoundTrip<T>(into: map<string, T>, m: map<string, T>, write: T -> Json, load: Json -> Option<T>)
    requires forall k :: k in m ==> load(write(m[k])) == Some(m[k])
    ensures LoadEntries(into, MapJson(m, write).Entries(), load) == Progress(into + m, true)
  {
    hide MapJson, LoadEntries, KeysOf;
    var entries := MapJson(m, write).Entries();
    forall i | 0 <= i < |entries| ensures entries[i].0 in m && load(entries[i].1) == Some(m[entries[i].0]) {
      EntryOfMap(m, write, i);
    }
    EntriesLoad(into, m, entries, load);
    AllKeysWritten(m, write);
    assert Restrict(m, KeysOf(entries)) == m;
  }

  // Saving and loading into a new store keeps the cooldowns, every profile that is not an
  // environment key up to a non-positive expiry, and every chain; a default chain the saved
  // store lacks comes back.
  lemma SaveLoad(st: Store)
    ensures LoadJson(NEW_STORE, StoreJson(st)) ==
            Progress(Store(Kept(st.profiles), DEFAULT_CHAINS + st.chains, st.cooldowns, ""), true)
  {
    StoreMembers(st);
    hide LoadEntries, MapJson, LoadProfiles, Json.Elements, Json.Entries, ProfilesJson, StoreJson;
    hide Kept, LoadChain, LoadEntry, ChainJson, EntryJson;
    ProfilesRoundTrip(st.profiles);
    forall k | k in st.chains ensures LoadChain(ChainJson(st.chains[k])) == Some(st.chains[k]) {
      ChainRoundTrip(st.chains[k]);
    }
    MapRoundTrip(DEFAULT_CHAINS, st.chains, ChainJson, LoadChain);
    forall k | k in st.cooldowns ensures LoadEntry(EntryJson(st.cooldowns[k])) == Some(st.cooldowns[k]) {
      EntryRoundTrip(st.cooldowns[k]);
    }
    MapRoundTrip(map[], st.cooldowns, EntryJson, LoadEntry);
    assert map[] + st.cooldowns == st.cooldowns;
  }

  lemma StoreMembers(st: Store)
    ensures var j := StoreJson(st);
            && j.Contains("profiles") && j.fields["profiles"].Elements() == ProfilesJson(st.profiles)
            && j.Contains("fallback_chains") && j.fields["fallback_chains"] == MapJson(st.chains, ChainJson)
            && j.Contains("cooldowns") && j.fields["cooldowns"] == MapJson(st.cooldowns, EntryJson)
  {
    hide MapJson, ProfilesJson;
  }

  lemma ChainRoundTrip(c: seq<string>)
    ensures LoadChain(ChainJson(c)) == Some(c)
  {
    assert LoadChain(ChainJson(c)).value == c;
  }

  lemma EntryRoundTrip(e: CooldownEntry)
    ensures LoadEntry(EntryJson(e)) == Some(e)
  {
    assert ReasonOf(ReasonName(e.reason)) == e.reason;
  }

  // So the chains survive exactly when the saved store still has the default ones.
  lemma ChainsSurvive(st: Store)
    ensures LoadJson(NEW_STORE, StoreJson(st)).read.chains == st.chains <==>
            DEFAULT_CHAINS.Keys <= st.chains.Keys
  {
    SaveLoad(st);
    if DEFAULT_CHAINS.Keys <= st.chains.Keys {
      assert DEFAULT_CHAINS + st.chains == st.chains;
    }
  }

  lemma {:induction false} DefaultChainsStay(st: Store, log: seq<AuthRuns.Event>)
    requires DEFAULT_CHAINS.Keys <= st.chains.Keys && AuthRuns.After(st, log).Some?
    ensures DEFAULT_CHAINS.Keys <= AuthRuns.After(st, log).value.chains.Keys
    decreases |log|
  {
    if log != [] {
      DefaultChainsStay(st, log[..|log| - 1]);
    }
  }

  // And no run of the program loses one: whatever is done to a store that started as new,
  // saving and reloading gives the same chains and cooldowns back.
  lemma RunsSurviveReload(log: seq<AuthRuns.Event>)
    requires AuthRuns.After(NEW_STORE, log).Some?
    ensures var st := AuthRuns.After(NEW_STORE, log).value;
            LoadJson(NEW_STORE, StoreJson(st)) == Progress(st.(profiles := Kept(st.profiles), pin := ""), true)
  {
    var st := AuthRuns.After(NEW_STORE, log).value;
    DefaultChainsStay(NEW_STORE, log);
    SaveLoad(st);
    ChainsSurvive(st);
  }

  // ---- Observational equivalence ----

  function Usable(st: Store, provider: string, now: int): AuthProfile -> bool {
    (p: AuthProfile) =>
      p.provider == provider && !CooledDown(st, p.id, now) && !Expired(p, now) &&
      !(p.source == "env" && SignedInByCli(st, provider, now))
  }

  // The first minimum among the profiles that pass a test.
  function BestOf(ps: seq<AuthProfile>, ok: AuthProfile -> bool): Option<AuthProfile> {
    if ps == [] then None
    else
      Better(BestOf(ps[..|ps| - 1], ok), ps[|ps| - 1], ok(ps[|ps| - 1]))
  }

  function Better(best: Option<AuthProfile>, last: AuthProfile, ok: bool): Option<AuthProfile> {
    if !ok || (best.Some? && !Before(last, best.value)) then best else Some(last)
  }

  lemma {:induction false} BestBeforeIsBestOf(st: Store, provider: string, now: int, i: nat)
    requires i <= |st.profiles|
    ensures var r := BestBefore(st, provider, now, i);
            BestOf(st.profiles[..i], Usable(st, provider, now)) ==
            if r.None? then None else Some(st.profiles[r.value])
  {
    if i > 0 {
      BestBeforeIsBestOf(st, provider, now, i - 1);
      assert st.profiles[..i][..i - 1] == st.profiles[..i - 1];
      assert Usable(st, provider, now)(st.profiles[i - 1]) == Candidate(st, provider, now, i - 1);
    }
  }

  lemma ResolveUnpinned(st: Store, provider: string, now: int)
    requires st.pin == ""
    ensures var best := BestOf(st.profiles, Usable(st, provider, now));
            Resolve(st, provider, now) == if best.None? then None else Some(Resolved(best.value))
  {
    BestBeforeIsBestOf(st, provider, now, |st.profiles|);
    assert st.profiles[..|st.profiles|] == st.profiles;
  }

  // The store a restarted process sees.
  function Reloaded(st: Store): Store {
    Store(Kept(st.profiles), DEFAULT_CHAINS + st.chains, st.cooldowns, "")
  }

  function WithoutEnv(ps: seq<AuthProfile>): seq<AuthProfile> {
    if ps == [] then []
    else
      var last := ps[|ps| - 1];
      WithoutEnv(ps[..|ps| - 1]) + (if last.source == "env" then [] else [last])
  }

  lemma {:induction false} KeptOfWithoutEnv(ps: seq<AuthProfile>)
    ensures Kept(WithoutEnv(ps)) == Kept(ps)
    ensures forall i :: 0 <= i < |WithoutEnv(ps)| ==> WithoutEnv(ps)[i].source != "env"
  {
    if ps != [] {
      var earlier, last := ps[..|ps| - 1], ps[|ps| - 1];
      KeptOfWithoutEnv(earlier);
      if last.source != "env" {
        var w := WithoutEnv(earlier) + [last];
        assert w[..|w| - 1] == WithoutEnv(earlier);
      } else {
        assert WithoutEnv(ps) == WithoutEnv(earlier);
      }
    }
  }

  // At every time, the reloaded store resolves as the saved one stripped of environment
  // keys and of its pin.
  lemma ReloadResolvesWithoutEnv(st: Store, provider: string, now: int)
    ensures Resolve(Reloaded(st), provider, now) ==
            Resolve(st.(profiles := WithoutEnv(st.profiles), pin := ""), provider, now)
  {
    var bare := st.(profiles := WithoutEnv(st.profiles), pin := "");
    KeptOfWithoutEnv(st.profiles);
    ResolveUnpinned(Reloaded(st), provider, now);
    ResolveUnpinned(bare, provider, now);
    BestIsMember(bare.profiles, Usable(bare, provider, now));
    BestOfPersisted(bare.profiles, Usable(bare, provider, now), Usable(Reloaded(st), provider, now));
  }

  lemma {:induction false} BestIsMember(ps: seq<AuthProfile>, ok: AuthProfile -> bool)
    ensures var best := BestOf(ps, ok); best.Some? ==> best.value in ps && ok(best.value)
    decreases |ps|
  {
    if ps != [] {
      BestIsMember(ps[..|ps| - 1], ok);
      assert forall p :: p in ps[..|ps| - 1] ==> p in ps;
    }
  }

  // The profile an unpinned store picks.
  function Winner(st: Store, provider: string, now: int): Option<AuthProfile> {
    BestOf(st.profiles, Usable(st, provider, now))
  }

  predicate Unaffected(st: Store, provider: string, now: int) {
    var w := Winner(st, provider, now);
    w.None? || w.value.source != "env"
  }

  // What is kept of a choice: the same winner unless it is an environment key, and never one
  // that would have come before it.
  predicate Persisted(best: Option<AuthProfile>, kept: Option<AuthProfile>) {
    && (best.None? ==> kept.None?)
    && (best.Some? && best.value.source != "env" ==> kept == Some(Normal(best.value)))
    && (kept.Some? ==> kept.value.source != "env")
    && (best.Some? && kept.Some? ==> !Before(kept.value, best.value))
  }

  lemma PersistedStep(best: Option<AuthProfile>, kept: Option<AuthProfile>, last: AuthProfile, ok: bool)
    requires Persisted(best, kept)
    ensures Persisted(Better(best, last, ok),
                      if last.source == "env" then kept else Better(kept, Normal(last), ok))
  {
  }

  lemma {:induction false} BestOfPersisted(ps: seq<AuthProfile>, ok: AuthProfile -> bool, ok': AuthProfile -> bool)
    requires forall i :: 0 <= i < |ps| && ps[i].source != "env" ==> ok'(Normal(ps[i])) == ok(ps[i])
    ensures Persisted(BestOf(ps, ok), BestOf(Kept(ps), ok'))
    decreases |ps|
  {
    hide Persisted, Better, Normal;
    if ps == [] {
      NothingPersisted();
    } else {
      var earlier, last := ps[..|ps| - 1], ps[|ps| - 1];
      BestOfPersisted(earlier, ok, ok');
      PersistedStep(BestOf(earlier, ok), BestOf(Kept(earlier), ok'), last, ok(last));
      if last.source != "env" {
        var kept := Kept(earlier) + [Normal(last)];
        assert kept[..|kept| - 1] == Kept(earlier);
      } else {
        assert Kept(ps) == Kept(earlier);
      }
    }
  }

  lemma NothingPersisted()
    ensures Persisted(None, None)
  {
  }

  // A reload keeps the pick of an unpinned store, at any time, if and only if it is no
  // environment key.
  lemma ReloadKeepsWinner(st: Store, provider: string, now: int)
    ensures (match Winner(st, provider, now) case None => None case Some(p) => Some(Normal(p))) ==
              Winner(Reloaded(st), provider, now) <==>
            Unaffected(st, provider, now)
  {
    hide Usable;
    UsableAfterReload(st, provider, now);
    BestOfPersisted(st.profiles, Usable(st, provider, now), Usable(Reloaded(st), provider, now));
  }

  lemma UsableAfterReload(st: Store, provider: string, now: int)
    ensures forall p: AuthProfile :: p.source != "env" ==>
              Usable(Reloaded(st), provider, now)(Normal(p)) == Usable(st, provider, now)(p)
  {
  }

  // So it goes unnoticed by resolve() while no pin is set and the pick is no environment key...
  lemma ReloadUnnoticed(st: Store, provider: string, now: int)
    requires st.pin == "" && Unaffected(st, provider, now)
    ensures Resolve(Reloaded(st), provider, now) == Resolve(st, provider, now)
  {
    ResolveUnpinned(Reloaded(st), provider, now);
    ResolveUnpinned(st, provider, now);
    ReloadKeepsWinner(st, provider, now);
  }

  // ...and by resolve_with_fallback() while that holds along the chain.
  lemma {:induction false} FirstResolvedUnnoticed(st: Store, providers: seq<string>, now: int)
    requires st.pin == "" && forall p :: p in providers ==> Unaffected(st, p, now)
    ensures FirstResolved(Reloaded(st), providers, now) == FirstResolved(st, providers, now)
    decreases |providers|
  {
    hide Unaffected, Resolve;
    if providers != [] {
      ReloadUnnoticed(st, providers[0], now);
      FirstResolvedUnnoticed(st, providers[1..], now);
    }
  }

  lemma FallbackUnnoticed(st: Store, provider: string, now: int)
    requires st.pin == "" && DEFAULT_CHAINS.Keys <= st.chains.Keys
    requires forall p :: p in ChainOf(st, provider) ==> Unaffected(st, p, now)
    ensures ResolveWithFallback(Reloaded(st), provider, now) == ResolveWithFallback(st, provider, now)
  {
    hide Unaffected, FirstResolved;
    assert DEFAULT_CHAINS + st.chains == st.chains;
    FirstResolvedUnnoticed(st, ChainOf(st, provider), now);
  }

  // A CLI sign-in is one such case: it hides the environment keys.
  lemma SignInIsUnaffected(st: Store, provider: string, now: int)
    requires SignedInByCli(st, provider, now)
    ensures Unaffected(st, provider, now)
  {
    BestIsMember(st.profiles, Usable(st, provider, now));
  }

  // Without a CLI sign-in it may be noticed: an environment key is gone after the restart.
  lemma ReloadNoticed(now: int)
    ensures var st := Store([EnvProfile("OPENAI_API_KEY", "openai", "sk")], DEFAULT_CHAINS, map[], "");
            Resolve(st, "openai", now).Some? && Resolve(Reloaded(st), "openai", now).None?
  {
    var env := EnvProfile("OPENAI_API_KEY", "openai", "sk");
    var st := Store([env], DEFAULT_CHAINS, map[], "");
    assert Eligible(st, "openai", now, 0);
    PickMeetsSpec(st, "openai", now);
    assert Kept([env]) == [];
    PickMeetsSpec(Reloaded(st), "openai", now);
  }

  // ---- What is there by default ----

  const PROVIDERS: seq<string> := ["claude", "openai", "gemini", "ollama"]

  function Others(providers: seq<string>, p: string): seq<string> {
    if providers == [] then []
    else (if providers[0] == p then [] else [providers[0]]) + Others(providers[1..], p)
  }

  // A new store falls back from each provider to the other three in a fixed order, and from
  // Anthropic as from Claude.
  lemma DefaultFallbacks(k: nat)
    requires k < |PROVIDERS|
    ensures PROVIDERS[k] in DEFAULT_CHAINS && DEFAULT_CHAINS[PROVIDERS[k]] == Others(PROVIDERS, PROVIDERS[k])
    ensures "anthropic" in DEFAULT_CHAINS && DEFAULT_CHAINS["anthropic"] == DEFAULT_CHAINS["claude"]
    ensures |DEFAULT_CHAINS| == 5
  {
    assert PROVIDERS[1..] == ["openai", "gemini", "ollama"] && PROVIDERS[1..][1..] == ["gemini", "ollama"];
    assert PROVIDERS[1..][1..][1..] == ["ollama"] && PROVIDERS[1..][1..][1..][1..] == [];
  }

  // Members that a document leaves out are empty; an entry without a reason is a rate limit.
  lemma SparseMembers()
    ensures LoadProfile(Obj(map[])) == Some(AuthProfile("", "", ApiKey, "", "", "", "", "", 0, "", 0))
    ensures LoadEntry(Obj(map[])) == Some(CooldownEntry(0, 0, RateLimit))
    ensures LoadJson(NEW_STORE, Obj(map[])) == Progress(NEW_STORE, true)
  {
  }
}
