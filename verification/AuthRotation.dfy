/**
Rotation fairness of the credential store: resolving and reporting success in turn uses
the profiles of the top class in strict rotation.
*/
module AuthRotation {
  import opened Text
  import opened AuthStore

  // One use of the store: resolve at one time, report success at another.
  datatype Round = Round(resolveAt: int, successAt: int)

  predicate SameClass(a: AuthProfile, b: AuthProfile) {
    CliImport(a) == CliImport(b) && a.kind == b.kind
  }

  predicate Outranks(a: AuthProfile, b: AuthProfile) {
    (CliImport(a) && !CliImport(b)) || (CliImport(a) == CliImport(b) && a.kind.OAuth? && b.kind.ApiKey?)
  }

  // At a time, `top` is the class of candidates that outranks all the others.
  ghost predicate TopAt(st: Store, provider: string, top: set<nat>, now: int) {
    && (forall i :: i in top ==> i < |st.profiles| && Candidate(st, provider, now, i))
    && (forall i, j :: i in top && j in top ==> SameClass(st.profiles[i], st.profiles[j]))
    && (forall i, j: nat :: i in top && j !in top && j < |st.profiles| && Candidate(st, provider, now, j) ==>
          Outranks(st.profiles[i], st.profiles[j]))
  }

  // Each member of the class is the first profile with its id, the one a success report finds.
  ghost predicate FirstOfId(st: Store, top: set<nat>) {
    forall i, j: nat :: i in top && i < |st.profiles| && j < i ==> st.profiles[j].id != st.profiles[i].id
  }

  ghost predicate UsedBefore(st: Store, top: set<nat>, t: int) {
    forall i :: i in top && i < |st.profiles| ==> st.profiles[i].lastUsedAt < t
  }

  // The clock of success reports is strictly increasing and past every recorded use.
  ghost predicate ClockRuns(st: Store, top: set<nat>, rounds: seq<Round>) {
    && (rounds != [] ==> UsedBefore(st, top, rounds[0].successAt))
    && forall i, j :: 0 <= i < j < |rounds| ==> rounds[i].successAt < rounds[j].successAt
  }

  // No pin, a clock that runs, and one top class for the whole run.
  ghost predicate Running(st: Store, provider: string, top: set<nat>, rounds: seq<Round>) {
    && st.pin == "" && top != {} && ClockRuns(st, top, rounds)
    && forall r :: r in rounds ==> TopAt(st, provider, top, r.resolveAt)
  }

  // The positions picked by the rounds, up to one that finds no profile.
  function Picks(st: Store, provider: string, rounds: seq<Round>): seq<nat>
    decreases |rounds|
  {
    if rounds == [] then []
    else
      var i := Pick(st, provider, rounds[0].resolveAt);
      if i.None? then []
      else [i.value] + Picks(Succeed(st, st.profiles[i.value].id, rounds[0].successAt), provider, rounds[1..])
  }

  // The position a success report for this profile reaches.
  function FirstNamesake(st: Store, i: nat): (f: nat)
    requires i < |st.profiles|
    ensures f <= i && st.profiles[f].id == st.profiles[i].id
    ensures forall j: nat :: j < f ==> st.profiles[j].id != st.profiles[i].id
  {
    IndexOfId(st.profiles, st.profiles[i].id).value
  }

  function Stamped(st: Store, f: nat, at: int): seq<AuthProfile>
    requires f < |st.profiles|
  {
    st.profiles[f := st.profiles[f].(lastUsedAt := at)]
  }

  // A success report stamps one use time, leaves every candidate a candidate, and every class
  // as it was.
  lemma SuccessKeepsCandidates(st: Store, provider: string, i: nat, at: int, now: int)
    requires i < |st.profiles| && Candidate(st, provider, now, i)
    ensures var st' := Succeed(st, st.profiles[i].id, at);
            && st'.profiles == Stamped(st, FirstNamesake(st, i), at)
            && forall j: nat :: j < |st.profiles| ==>
                 (Candidate(st', provider, now, j) <==> Candidate(st, provider, now, j))
  {
    var f := FirstNamesake(st, i);
    TouchOne(st.profiles, f, at);
    var st' := Succeed(st, st.profiles[i].id, at);
    assert st'.profiles == Stamped(st, f, at);
    assert forall j: nat :: j < |st.profiles| ==>
        (Eligible(st', provider, now, j) <==> Eligible(st, provider, now, j)) &&
        (CliImport(st'.profiles[j]) <==> CliImport(st.profiles[j])) &&
        st'.profiles[j].source == st.profiles[j].source;
    if SignedInByCli(st, provider, now) {
      var j :| 0 <= j < |st.profiles| && Eligible(st, provider, now, j) && CliImport(st.profiles[j]);
      assert Eligible(st', provider, now, j) && CliImport(st'.profiles[j]);
    }
    if SignedInByCli(st', provider, now) {
      var j :| 0 <= j < |st'.profiles| && Eligible(st', provider, now, j) && CliImport(st'.profiles[j]);
      assert Eligible(st, provider, now, j) && CliImport(st.profiles[j]);
    }
  }

  // A member of the class that comes before all the others of it.
  ghost predicate Leads(ps: seq<AuthProfile>, top: set<nat>, i: nat) {
    && i in top && i < |ps|
    && forall j :: j in top && j != i ==> j < |ps| && Precedes(ps, i, j)
  }

  // The pick is the member that leads the class, so no member of it is older.
  lemma PickLeadsTop(st: Store, provider: string, top: set<nat>, now: int, i: nat)
    requires st.pin == "" && top != {} && TopAt(st, provider, top, now)
    ensures Pick(st, provider, now).Some?
    ensures Pick(st, provider, now) == Some(i) <==> Leads(st.profiles, top, i)
    ensures Leads(st.profiles, top, i) ==>
              forall j :: j in top ==> st.profiles[i].lastUsedAt <= st.profiles[j].lastUsedAt
  {
    PickMeetsSpec(st, provider, now);
    var t :| t in top;
    assert Eligible(st, provider, now, t);
    var p := Pick(st, provider, now).value;
    assert Chosen(st, provider, now, p) && First(st, provider, now, p);
    assert p == t || Precedes(st.profiles, p, t);
    assert !Outranks(st.profiles[t], st.profiles[p]);
    assert p in top && Leads(st.profiles, top, p);
    if Leads(st.profiles, top, i) && i != p {
      PrecedesIsTotalOrder(st.profiles, i, p, i);
    }
  }

  lemma RoundKeepsRunning(st: Store, provider: string, top: set<nat>, rounds: seq<Round>)
    requires rounds != [] && Running(st, provider, top, rounds)
    ensures Pick(st, provider, rounds[0].resolveAt).Some?
    ensures var i, at := Pick(st, provider, rounds[0].resolveAt).value, rounds[0].successAt;
            var st' := Succeed(st, st.profiles[i].id, at);
            && Running(st', provider, top, rounds[1..])
            && Leads(st.profiles, top, i)
            && (forall j :: j in top ==> j < |st.profiles| && st.profiles[i].lastUsedAt <= st.profiles[j].lastUsedAt)
            && (forall j :: j in top ==> st.profiles[j].lastUsedAt < at)
            && st'.profiles == Stamped(st, FirstNamesake(st, i), at)
  {
    var now, at := rounds[0].resolveAt, rounds[0].successAt;
    assert rounds[0] in rounds;
    PickLeadsTop(st, provider, top, now, 0);
    var i := Pick(st, provider, now).value;
    PickLeadsTop(st, provider, top, now, i);
    var st' := Succeed(st, st.profiles[i].id, at);
    SuccessKeepsCandidates(st, provider, i, at, now);
    hide Pick, Succeed, Leads;
    forall r | r in rounds[1..]
      ensures TopAt(st', provider, top, r.resolveAt)
    {
      assert r in rounds;
      SuccessKeepsTop(st, provider, top, i, at, r.resolveAt);
    }
  }

  lemma SuccessKeepsTop(st: Store, provider: string, top: set<nat>, i: nat, at: int, now: int)
    requires i < |st.profiles| && i in top && TopAt(st, provider, top, now)
    ensures TopAt(Succeed(st, st.profiles[i].id, at), provider, top, now)
  {
    hide Succeed, Candidate;
    SuccessKeepsCandidates(st, provider, i, at, now);
  }

  lemma StampKeepsIds(st: Store, st': Store, top: set<nat>, f: nat, at: int)
    requires f < |st.profiles| && st'.profiles == Stamped(st, f, at)
    ensures FirstOfId(st', top) <==> FirstOfId(st, top)
  {
    assert forall j :: 0 <= j < |st.profiles| ==> st'.profiles[j].id == st.profiles[j].id;
  }

  // Members used in a window are newer than those still waiting.
  ghost predicate WaitingAreOlder(ps: seq<AuthProfile>, top: set<nat>, used: set<nat>) {
    && (forall i :: i in top ==> i < |ps|)
    && forall i, j :: i in used && i in top && j in top && j !in used ==> ps[j].lastUsedAt < ps[i].lastUsedAt
  }

  lemma OldestIsWaiting(ps: seq<AuthProfile>, top: set<nat>, used: set<nat>, i: nat, at: int)
    requires WaitingAreOlder(ps, top, used) && top - used != {}
    requires i in top && forall j :: j in top ==> ps[i].lastUsedAt <= ps[j].lastUsedAt < at
    ensures i !in used
    ensures WaitingAreOlder(ps[i := ps[i].(lastUsedAt := at)], top, used + {i})
  {
    var j :| j in top - used;
  }

  // So the rounds of a window take the waiting ones, each once.
  lemma {:induction false} WindowUsesTheWaiting(st: Store, provider: string, top: set<nat>, used: set<nat>, rounds: seq<Round>)
    requires Running(st, provider, top, rounds) && FirstOfId(st, top) && used <= top
    requires |rounds| == |top - used| && WaitingAreOlder(st.profiles, top, used)
    ensures |Picks(st, provider, rounds)| == |rounds|
    ensures multiset(Picks(st, provider, rounds)) == multiset(top - used)
    decreases |rounds|
  {
    hide Running, Pick, Succeed, WaitingAreOlder, FirstOfId, FirstNamesake;
    if rounds == [] {
      assert top - used == {};
    } else {
      RoundKeepsRunning(st, provider, top, rounds);
      var i := Pick(st, provider, rounds[0].resolveAt).value;
      OldestIsWaiting(st.profiles, top, used, i, rounds[0].successAt);
      var st' := Succeed(st, st.profiles[i].id, rounds[0].successAt);
      OwnNamesake(st, top, i);
      StampKeepsIds(st, st', top, i, rounds[0].successAt);
      OneFewer(top, used, i);
      WindowUsesTheWaiting(st', provider, top, used + {i}, rounds[1..]);
    }
  }

  lemma OwnNamesake(st: Store, top: set<nat>, i: nat)
    requires FirstOfId(st, top) && Leads(st.profiles, top, i)
    ensures FirstNamesake(st, i) == i
  {
  }

  lemma OneFewer(top: set<nat>, used: set<nat>, i: nat)
    requires i in top && i !in used
    ensures |top - (used + {i})| == |top - used| - 1
    ensures multiset(top - used) == multiset{i} + multiset(top - (used + {i}))
  {
    assert top - (used + {i}) == top - used - {i};
    assert top - used == (top - used - {i}) + {i};
  }

  lemma RunningPrefix(st: Store, provider: string, top: set<nat>, rounds: seq<Round>, k: nat)
    requires Running(st, provider, top, rounds) && k <= |rounds|
    ensures Running(st, provider, top, rounds[..k])
  {
    assert forall r :: r in rounds[..k] ==> r in rounds;
  }

  lemma NoneUsedYet(st: Store, provider: string, top: set<nat>, rounds: seq<Round>)
    requires Running(st, provider, top, rounds) && rounds != []
    ensures WaitingAreOlder(st.profiles, top, {})
  {
    assert rounds[0] in rounds;
  }

  // A window of |top| rounds that uses each profile exactly once.
  ghost predicate FairWindow(st: Store, provider: string, top: set<nat>, rounds: seq<Round>, w: nat) {
    && w + |top| <= |Picks(st, provider, rounds)|
    && multiset(Picks(st, provider, rounds)[w..w + |top|]) == multiset(top)
  }

  // Fairness over unbounded runs: any |top| consecutive rounds use each profile exactly once.
  lemma {:induction false} RotationIsFair(st: Store, provider: string, top: set<nat>, rounds: seq<Round>, w: nat)
    requires Running(st, provider, top, rounds) && FirstOfId(st, top) && w + |top| <= |rounds|
    ensures FairWindow(st, provider, top, rounds, w)
    decreases w
  {
    hide Running, Pick, Succeed;
    if w == 0 {
      var window, k := rounds[..|top|], |top|;
      assert top - {} == top;
      RunningPrefix(st, provider, top, rounds, k);
      NoneUsedYet(st, provider, top, rounds);
      WindowUsesTheWaiting(st, provider, top, {}, window);
      PicksOfPrefix(st, provider, rounds, k);
      assert Picks(st, provider, rounds)[0..k] == Picks(st, provider, window);
    } else {
      RoundKeepsRunning(st, provider, top, rounds);
      var i := Pick(st, provider, rounds[0].resolveAt).value;
      var st' := Succeed(st, st.profiles[i].id, rounds[0].successAt);
      StampKeepsIds(st, st', top, FirstNamesake(st, i), rounds[0].successAt);
      RotationIsFair(st', provider, top, rounds[1..], w - 1);
      var later := Picks(st', provider, rounds[1..]);
      assert Picks(st, provider, rounds) == [i] + later;
      assert ([i] + later)[w..w + |top|] == later[w - 1..w - 1 + |top|];
    }
  }

  lemma {:induction false} PicksOfPrefix(st: Store, provider: string, rounds: seq<Round>, k: nat)
    requires k <= |rounds| && |Picks(st, provider, rounds[..k])| == k
    ensures k <= |Picks(st, provider, rounds)|
    ensures Picks(st, provider, rounds)[..k] == Picks(st, provider, rounds[..k])
    decreases k
  {
    if k > 0 {
      var r := rounds[0];
      assert rounds[..k][1..] == rounds[1..][..k - 1];
      var i := Pick(st, provider, r.resolveAt);
      var st' := Succeed(st, st.profiles[i.value].id, r.successAt);
      PicksOfPrefix(st', provider, rounds[1..], k - 1);
    }
  }

  // ---- Fairness fails exactly where an id is shared with an earlier profile ----

  lemma {:induction false} EveryRoundPicks(st: Store, provider: string, top: set<nat>, rounds: seq<Round>)
    requires Running(st, provider, top, rounds)
    ensures |Picks(st, provider, rounds)| == |rounds|
    decreases |rounds|
  {
    hide Running, Pick, Succeed;
    if rounds != [] {
      RoundKeepsRunning(st, provider, top, rounds);
      var i := Pick(st, provider, rounds[0].resolveAt).value;
      EveryRoundPicks(Succeed(st, st.profiles[i].id, rounds[0].successAt), provider, top, rounds[1..]);
    }
  }

  // Stamping another profile with a later time leaves the leader in the lead.
  lemma StampKeepsLead(st: Store, top: set<nat>, i: nat, f: nat, at: int)
    requires Leads(st.profiles, top, i) && f < |st.profiles| && f != i && st.profiles[f].lastUsedAt <= at
    ensures Leads(Stamped(st, f, at), top, i)
  {
  }

  // A picked profile with an earlier namesake is not the one stamped, and is picked again.
  lemma {:induction false} PickedAgain(st: Store, provider: string, top: set<nat>, rounds: seq<Round>, t: nat)
    requires Running(st, provider, top, rounds) && t + 1 < |rounds| == |Picks(st, provider, rounds)|
    requires var i := Picks(st, provider, rounds)[t];
             i < |st.profiles| && FirstNamesake(st, i) < i
    ensures Picks(st, provider, rounds)[t + 1] == Picks(st, provider, rounds)[t]
    decreases t
  {
    hide Running, Pick, Succeed;
    RoundKeepsRunning(st, provider, top, rounds);
    var i, at := Pick(st, provider, rounds[0].resolveAt).value, rounds[0].successAt;
    var st' := Succeed(st, st.profiles[i].id, at);
    var later := Picks(st', provider, rounds[1..]);
    assert Picks(st, provider, rounds) == [i] + later;
    EveryRoundPicks(st', provider, top, rounds[1..]);
    if t == 0 {
      LeaderAgain(st, st', provider, top, rounds, i);
    } else {
      SameNamesakes(st, st', FirstNamesake(st, i), at, later[t - 1]);
      PickedAgain(st', provider, top, rounds[1..], t - 1);
    }
  }

  lemma SameNamesakes(st: Store, st': Store, f: nat, at: int, i: nat)
    requires f < |st.profiles| && st'.profiles == Stamped(st, f, at) && i < |st.profiles|
    ensures FirstNamesake(st', i) == FirstNamesake(st, i)
  {
    assert forall j :: 0 <= j < |st.profiles| ==> st'.profiles[j].id == st.profiles[j].id;
  }

  lemma LeaderAgain(st: Store, st': Store, provider: string, top: set<nat>, rounds: seq<Round>, i: nat)
    requires |rounds| > 1 && Running(st', provider, top, rounds[1..]) && Leads(st.profiles, top, i)
    requires FirstNamesake(st, i) < i && st'.profiles == Stamped(st, FirstNamesake(st, i), rounds[0].successAt)
    requires FirstNamesake(st, i) in top ==>
               st.profiles[FirstNamesake(st, i)].lastUsedAt < rounds[0].successAt
    ensures Picks(st', provider, rounds[1..]) != [] && Picks(st', provider, rounds[1..])[0] == i
  {
    hide Pick, Succeed;
    var f, at := FirstNamesake(st, i), rounds[0].successAt;
    if f in top {
      StampKeepsLead(st, top, i, f, at);
    } else {
      StampOutside(st, top, i, f, at);
    }
    assert rounds[1..][0] in rounds[1..];
    PickLeadsTop(st', provider, top, rounds[1].resolveAt, i);
  }

  lemma StampOutside(st: Store, top: set<nat>, i: nat, f: nat, at: int)
    requires Leads(st.profiles, top, i) && f < |st.profiles| && f !in top
    ensures Leads(Stamped(st, f, at), top, i)
  {
  }

  lemma TwiceIsUnfair(picks: seq<nat>, top: set<nat>, w: nat, t: nat)
    requires w <= t && t + 1 < w + |top| <= |picks| && picks[t] == picks[t + 1]
    ensures multiset(picks[w..w + |top|]) != multiset(top)
  {
    var window, i := picks[w..w + |top|], picks[t];
    var a, b := window[..t - w], window[t + 2 - w..];
    assert window == a + [i, i] + b;
    assert multiset(window)[i] >= 2 && multiset(top)[i] <= 1;
  }

  lemma NamesakeIsUnfair(st: Store, provider: string, top: set<nat>, rounds: seq<Round>, i: nat)
    requires Running(st, provider, top, rounds) && 2 <= |top| < |rounds|
    requires i in top && i < |st.profiles| && FirstNamesake(st, i) < i
    ensures exists w: nat :: w + |top| <= |rounds| && !FairWindow(st, provider, top, rounds, w)
  {
    hide Running;
    var picks := Picks(st, provider, rounds);
    EveryRoundPicks(st, provider, top, rounds);
    if FairWindow(st, provider, top, rounds, 0) {
      assert i in multiset(picks[0..|top|]);
      var t :| 0 <= t < |top| && picks[0..|top|][t] == i;
      PickedAgain(st, provider, top, rounds, t);
      var w := if t + 1 < |top| then 0 else 1;
      TwiceIsUnfair(picks, top, w, t);
      assert !FairWindow(st, provider, top, rounds, w);
    }
  }

  // In a run of more rounds than there are profiles in the class, every window is fair if and
  // only if each of them is the first profile of its id.
  lemma FairExactly(st: Store, provider: string, top: set<nat>, rounds: seq<Round>)
    requires Running(st, provider, top, rounds) && 2 <= |top| < |rounds|
    ensures (forall w: nat :: w + |top| <= |rounds| ==> FairWindow(st, provider, top, rounds, w)) <==>
            FirstOfId(st, top)
  {
    hide FairWindow, Running;
    if FirstOfId(st, top) {
      forall w: nat | w + |top| <= |rounds| ensures FairWindow(st, provider, top, rounds, w) {
        RotationIsFair(st, provider, top, rounds, w);
      }
    } else {
      var i, j: nat :| i in top && i < |st.profiles| && j < i && st.profiles[j].id == st.profiles[i].id;
      NamesakeIsUnfair(st, provider, top, rounds, i);
    }
  }

  // ---- Shared ids starve a profile ----

  // A key added by hand under the label "env" and the imported environment key share an id.
  function SharedIdStore(): Store {
    Import(AddApiKey(Store([], map[], map[], ""), "claude", "sk-hand", "env"),
           EnvProfile("ANTHROPIC_API_KEY", "claude", "sk-env"))
  }

  lemma SharedIdsHappen()
    ensures var ps := SharedIdStore().profiles;
            |ps| == 2 && ps[0].id == ps[1].id == "claude:env" && ps[0].apiKey != ps[1].apiKey
  {
    assert "claude" + ":" + "env" == "claude:env";
    assert "claude" + ":env" == "claude:env";
  }

  // Success reports reach only the first of the two, so the second stays the oldest for ever.
  ghost predicate Starving(st: Store) {
    && |st.profiles| == 2 && st.pin == "" && st.cooldowns == map[]
    && (forall i :: 0 <= i < 2 ==> st.profiles[i].id == "claude:env" && st.profiles[i].provider == "claude")
    && (forall i :: 0 <= i < 2 ==> st.profiles[i].kind.ApiKey? && !CliImport(st.profiles[i]))
    && st.profiles[1].lastUsedAt == 0 && st.profiles[0].lastUsedAt > 0
  }

  lemma StarvingPicksSecond(st: Store, now: int)
    requires Starving(st)
    ensures Pick(st, "claude", now) == Some(1)
  {
    assert !SignedInByCli(st, "claude", now);
    assert Candidate(st, "claude", now, 0) && Candidate(st, "claude", now, 1);
    assert BestBefore(st, "claude", now, 1) == Some(0);
  }

  // One round from the shared-id store uses the first profile and leaves it starving.
  lemma SharedIdsStartStarving(round: Round)
    requires round.successAt > 0
    ensures var st := SharedIdStore();
            && Pick(st, "claude", round.resolveAt) == Some(0)
            && |st.profiles| == 2 && Starving(Succeed(st, st.profiles[0].id, round.successAt))
  {
    SharedIdsHappen();
    var st, now := SharedIdStore(), round.resolveAt;
    assert !SignedInByCli(st, "claude", now);
    assert Candidate(st, "claude", now, 0) && Candidate(st, "claude", now, 1);
    assert BestBefore(st, "claude", now, 1) == Some(0);
    TouchOne(st.profiles, 0, round.successAt);
  }

  lemma {:induction false} StarvingForEver(st: Store, rounds: seq<Round>)
    requires Starving(st) && forall r :: r in rounds ==> r.successAt > 0
    ensures |Picks(st, "claude", rounds)| == |rounds|
    ensures forall i :: 0 <= i < |rounds| ==> Picks(st, "claude", rounds)[i] == 1
    decreases |rounds|
  {
    if rounds != [] {
      assert rounds[0] in rounds;
      StarvingPicksSecond(st, rounds[0].resolveAt);
      var st' := Succeed(st, "claude:env", rounds[0].successAt);
      TouchOne(st.profiles, 0, rounds[0].successAt);
      assert Starving(st');
      StarvingForEver(st', rounds[1..]);
    }
  }

  // So in every run from that store only the first round uses the first profile.
  lemma SharedIdsStarve(rounds: seq<Round>)
    requires rounds != [] && forall r :: r in rounds ==> r.successAt > 0
    ensures var picks := Picks(SharedIdStore(), "claude", rounds);
            |picks| == |rounds| && picks[0] == 0 && forall i :: 0 < i < |rounds| ==> picks[i] == 1
  {
    hide Pick, Succeed, SharedIdStore;
    assert rounds[0] in rounds;
    SharedIdsStartStarving(rounds[0]);
    var st := SharedIdStore();
    StarvingForEver(Succeed(st, st.profiles[0].id, rounds[0].successAt), rounds[1..]);
  }
}
