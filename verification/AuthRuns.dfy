/**
Whole runs of the credential store: what a log of reported failures and successes says
about the profiles it may hand out.
*/
module AuthRuns {
  import opened Text
  import opened AuthStore

  datatype Op =
    | KeyAdded(provider: string, key: string, lbl: string)
    | OauthAdded(provider: string, access: string, refresh: string, expiresAt: int, email: string)
    | EnvImported(envName: string, provider: string, value: string)
    | ClaudeImported(access: string, refresh: string, expiresAt: int)
    | GeminiImported(access: string, refresh: string, expiresAt: int, email: string)
    | Removed(id: string)
    | Failed(id: string, reason: CooldownReason)
    | Succeeded(id: string)
    | SessionPinned(id: string)
    | ChainSet(provider: string, chain: seq<string>)

  datatype Event = At(now: int, op: Op)

  // Undefined behaviour in the source: a failure report whose delay overflows.
  predicate Defined(st: Store, e: Event) {
    e.op.Failed? ==> FailureDefined(st, e.op.id, e.op.reason)
  }

  function Apply(st: Store, e: Event): Store
    requires Defined(st, e)
  {
    match e.op
    case KeyAdded(provider, key, lbl) => AddApiKey(st, provider, key, lbl)
    case OauthAdded(provider, access, refresh, expiresAt, email) =>
      AddOauth(st, provider, access, refresh, expiresAt, email)
    case EnvImported(envName, provider, value) => Import(st, EnvProfile(envName, provider, value))
    case ClaudeImported(access, refresh, expiresAt) => Import(st, ClaudeProfile(access, refresh, expiresAt))
    case GeminiImported(access, refresh, expiresAt, email) =>
      Import(st, GeminiProfile(access, refresh, expiresAt, email))
    case Removed(id) => Remove(st, id)
    case Failed(id, reason) => Fail(st, id, reason, e.now)
    case Succeeded(id) => Succeed(st, id, e.now)
    case SessionPinned(id) => st.(pin := id)
    case ChainSet(provider, chain) => st.(chains := st.chains[provider := chain])
  }

  // The store after a log of events; None once an event is undefined.
  function After(st: Store, log: seq<Event>): Option<Store> {
    if log == [] then Some(st)
    else
      var before := After(st, log[..|log| - 1]);
      if before.None? || !Defined(before.value, log[|log| - 1]) then None
      else Some(Apply(before.value, log[|log| - 1]))
  }

  // ---- What the log alone says about a profile ----

  predicate Clears(e: Event, id: string) {
    e.op == Removed(id) || e.op == Succeeded(id)
  }

  predicate Fails(e: Event, id: string) {
    e.op.Failed? && e.op.id == id
  }

  // Failures reported in a row, since the last success or removal.
  function Streak(st: Store, log: seq<Event>, id: string): int {
    if log == [] then EntryOf(st, id).consecutive
    else
      var earlier, last := log[..|log| - 1], log[|log| - 1];
      if Clears(last, id) then 0
      else if Fails(last, id) then Streak(st, earlier, id) + 1
      else Streak(st, earlier, id)
  }

  // When the last failure report, if it still counts, lets the profile be used again.
  function Deadline(st: Store, log: seq<Event>, id: string): Option<int> {
    if log == [] then (if id in st.cooldowns then Some(st.cooldowns[id].untilMs) else None)
    else
      var earlier, last := log[..|log| - 1], log[|log| - 1];
      if Clears(last, id) then None
      else if Fails(last, id) then
        var d := Delay(last.op.reason, Streak(st, log, id));
        if d.None? then None else Some(last.now + d.value)
      else Deadline(st, earlier, id)
  }

  // ---- The store's cooldown table is the log's ----

  lemma ApplyKeepsOthers(st: Store, e: Event, id: string)
    requires Defined(st, e) && !Clears(e, id) && !Fails(e, id)
    ensures id in Apply(st, e).cooldowns <==> id in st.cooldowns
    ensures EntryOf(Apply(st, e), id) == EntryOf(st, id)
  {
  }

  lemma {:induction false} TableMatchesLog(st: Store, log: seq<Event>, id: string)
    requires After(st, log).Some?
    ensures var now := After(st, log).value;
            && EntryOf(now, id).consecutive == Streak(st, log, id)
            && Deadline(st, log, id) == if id in now.cooldowns then Some(now.cooldowns[id].untilMs) else None
    decreases |log|
  {
    if log != [] {
      var earlier, last := log[..|log| - 1], log[|log| - 1];
      TableMatchesLog(st, earlier, id);
      var before := After(st, earlier).value;
      if !Clears(last, id) && !Fails(last, id) {
        ApplyKeepsOthers(before, last, id);
      }
    }
  }

  // Cooldown safety over whole runs: whatever was pinned, added or imported meanwhile, a
  // resolution never hands out a profile before the deadline of its last counting failure.
  lemma CooldownSafety(st: Store, log: seq<Event>, provider: string, now: int)
    requires After(st, log).Some?
    ensures var store := After(st, log).value;
            forall auth :: Resolve(store, provider, now) == Some(auth) ||
                           ResolveWithFallback(store, provider, now) == Some(auth) ==>
              Deadline(st, log, auth.profileId).None? || Deadline(st, log, auth.profileId).value <= now
  {
    var store := After(st, log).value;
    forall auth | Resolve(store, provider, now) == Some(auth) ||
                  ResolveWithFallback(store, provider, now) == Some(auth)
      ensures Deadline(st, log, auth.profileId).None? || Deadline(st, log, auth.profileId).value <= now
    {
      TableMatchesLog(st, log, auth.profileId);
      if Resolve(store, provider, now) == Some(auth) {
        ResolvedIsNotCooling(store, provider, now);
      } else {
        var chain := ChainOf(store, provider);
        var k := FirstResolvedIsFirst(store, chain, now);
        ResolvedIsNotCooling(store, chain[k], now);
      }
    }
  }

  lemma ResolvedIsNotCooling(st: Store, provider: string, now: int)
    ensures Resolve(st, provider, now).Some? ==>
              !CooledDown(st, Resolve(st, provider, now).value.profileId, now)
  {
    PickMeetsSpec(st, provider, now);
    var i := Pick(st, provider, now);
    if i.Some? {
      assert Chosen(st, provider, now, i.value);
    }
  }

  // ---- Does reporting another failure ever help a profile back? ----

  // The last event of the log that concerns a profile's cooldown.
  function LastAbout(log: seq<Event>, id: string): Option<Event> {
    if log == [] then None
    else
      var last := log[|log| - 1];
      if Clears(last, id) || Fails(last, id) then Some(last) else LastAbout(log[..|log| - 1], id)
  }

  lemma {:induction false} DeadlineOfLast(st: Store, log: seq<Event>, id: string)
    requires After(st, log).Some? && LastAbout(log, id).Some? && Fails(LastAbout(log, id).value, id)
    ensures var last := LastAbout(log, id).value;
            var d := Delay(last.op.reason, Streak(st, log, id));
            d.Some? && Deadline(st, log, id) == Some(last.now + d.value)
    decreases |log|
  {
    var earlier, last := log[..|log| - 1], log[|log| - 1];
    if Fails(last, id) {
      TableMatchesLog(st, earlier, id);
    } else {
      DeadlineOfLast(st, earlier, id);
    }
  }

  predicate Brief(reason: CooldownReason) {
    reason.RateLimit? || reason.AuthError?
  }

  // After n failures in a row, the last for one reason, does a failure for another mean a
  // shorter delay?
  predicate Shortens(last: CooldownReason, next: CooldownReason, n: int) {
    || (!Brief(last) && Brief(next))
    || (last.UnsupportedMethod? && next.BillingError? && n <= 2)
  }

  lemma BillingDelays(n: int)
    requires Delay(BillingError, n).Some?
    ensures 5 * HOUR <= Delay(BillingError, n).value <= 24 * HOUR
    ensures Delay(BillingError, n).value == 24 * HOUR <==> n >= 4
  {
    assert Power(2, 0) == 1 && Power(2, 1) == 2 && Power(2, 2) == 4 && Power(2, 3) == 8;
    if n >= 4 {
      PowerGrows(2, 3, n - 1);
    } else if n >= 1 {
      PowerGrows(2, 0, n - 1);
    }
  }

  lemma BriefDelays(reason: CooldownReason, n: int)
    requires Brief(reason) && Delay(reason, n).Some?
    ensures 0 < Delay(reason, n).value <= HOUR
  {
    DelayGrows(reason, n, n);
  }

  lemma ShortensExactly(last: CooldownReason, next: CooldownReason, n: int)
    requires Delay(last, n).Some? && Delay(next, n + 1).Some?
    ensures Delay(next, n + 1).value < Delay(last, n).value <==> Shortens(last, next, n)
  {
    if Brief(last) {
      BriefDelays(last, n);
      if Brief(next) {
        DelayGrows(next, n, n + 1);
        SameLadder(last, next, n);
      }
    }
    if Brief(next) {
      BriefDelays(next, n + 1);
    }
    if last.BillingError? {
      BillingDelays(n);
      if next.BillingError? {
        DelayGrows(next, n, n + 1);
      }
    }
    if next.BillingError? {
      BillingDelays(n + 1);
    }
    hide Delay;
    UnsupportedDelay(n);
    UnsupportedDelay(n + 1);
  }

  lemma SameLadder(a: CooldownReason, b: CooldownReason, n: int)
    requires Brief(a) && Brief(b)
    ensures Delay(a, n) == Delay(b, n)
  {
  }

  lemma UnsupportedDelay(n: int)
    ensures Delay(UnsupportedMethod, n) == Some(24 * HOUR)
  {
  }

  // Over a log whose last word on a profile is a failure: reporting another one lets the profile
  // back earlier if and only if the reasons and the streak shorten the delay, and it comes
  // sooner than they shorten it by.
  lemma FailureShortensExactly(st: Store, log: seq<Event>, e: Event)
    requires e.op.Failed? && After(st, log + [e]).Some?
    requires LastAbout(log, e.op.id).Some? && Fails(LastAbout(log, e.op.id).value, e.op.id)
    requires LastAbout(log, e.op.id).value.now <= e.now
    ensures var id, last := e.op.id, LastAbout(log, e.op.id).value;
            var n := Streak(st, log, id);
            var was, renewed := Delay(last.op.reason, n), Delay(e.op.reason, n + 1);
            && was.Some? && renewed.Some?
            && Deadline(st, log, id).Some? && Deadline(st, log + [e], id).Some?
            && (Deadline(st, log + [e], id).value < Deadline(st, log, id).value <==>
                Shortens(last.op.reason, e.op.reason, n) && e.now - last.now < was.value - renewed.value)
  {
    hide Delay, Shortens;
    var id, last := e.op.id, LastAbout(log, e.op.id).value;
    assert (log + [e])[..|log|] == log && (log + [e])[|log|] == e;
    DeadlineOfLast(st, log, id);
    TableMatchesLog(st, log, id);
    ShortensExactly(last.op.reason, e.op.reason, Streak(st, log, id));
  }

  // So a rate limit reported after a billing error does: the deadline moves forward from
  // five hours to five minutes, because the delay is recomputed for the newer reason alone.
  lemma RateLimitShortensBilling(id: string)
    ensures var empty := Store([], map[], map[], "");
            var billing := [At(0, Failed(id, BillingError))];
            var both := billing + [At(1, Failed(id, RateLimit))];
            && After(empty, both).Some?
            && Deadline(empty, billing, id) == Some(5 * HOUR)
            && Deadline(empty, both, id) == Some(1 + 5 * MINUTE)
  {
    var empty := Store([], map[], map[], "");
    var b, r := At(0, Failed(id, BillingError)), At(1, Failed(id, RateLimit));
    assert Power(2, 0) == 1 && Power(5, 1) == 5 * Power(5, 0) == 5;
    assert [b][..0] == [] && ([b] + [r])[..1] == [b];
    assert Streak(empty, [b], id) == 1;
    assert After(empty, [b]) == Some(Fail(empty, id, BillingError, 0));
  }
}
