/**
The chat engine's background workers as a protocol of atomic steps over the shared
credential store: first attempt, retry after rotation, lookup and use of the model fallback
chain, one posted outcome, one decrement of the outstanding-task counter.
*/
module ChatWorker {
  import opened Text
  import opened JsonValue
  import opened AuthStore
  import AuthRuns

  // What a provider call does. An exception is swallowed by the thread pool.
  datatype CallResult = Succeeds | Fails(reason: Option<CooldownReason>) | Throws

  datatype Posted = ResponseFinished | ResponseError

  // Where a worker stands; every transition is one locked store call, one provider call, the
  // chain lookup, one posted event, or the decrement. Dead is where an exception leaves it.
  datatype Stage =
    | Starting
    | FirstCall(auth: Option<ResolvedAuth>)
    | Reporting(id: string, reason: CooldownReason)
    | Rotating(failed: string)
    | SecondCall(next: ResolvedAuth)
    | Lookup
    | Chain(i: nat)
    | ModelCall(i: nat, auth1: ResolvedAuth)
    | Crediting(id: string, thenPin: bool)
    | Pinning(id: string)
    | Posting(outcome: Posted)
    | Decrementing
    | Done
    | Dead

  // `chain` is what looking up the model fallback chain will give: its providers, or None where
  // the lookup throws. `lookedUp` says that it was; `prepared` that reading the prompt files
  // before the worker starts did not throw.
  datatype Worker = Worker(
    stage: Stage, provider: string, chain: Option<seq<string>>, prepared: bool, lookedUp: bool,
    calls: seq<CallResult>, posted: seq<Posted>)
  {
    function Models(): seq<string> {
      if chain.Some? then chain.value else []
    }

    // An exception was thrown: before the worker, by a provider call, or by the lookup.
    predicate Threw() {
      !prepared || Throws in calls || (lookedUp && chain.None?)
    }
  }

  datatype Engine = Engine(store: Store, activeTasks: int, workers: seq<Worker>)

  datatype Step =
    | Launch(provider: string, chain: Option<seq<string>>, prepared: bool)
    | Advance(w: nat, now: int, result: CallResult)
    | StoreEvent(event: AuthRuns.Event)

  // The counter is raised first; a task whose preparation throws never gets a worker.
  function Spawn(provider: string, chain: Option<seq<string>>, prepared: bool): Worker {
    Worker(if prepared then Starting else Dead, provider, chain, prepared, false, [], [])
  }

  function AfterCall(w: Worker, result: CallResult, onSuccess: Stage, onFailure: Stage): Worker {
    w.(calls := w.calls + [result],
       stage := match result case Succeeds => onSuccess case Fails(_) => onFailure case Throws => Dead)
  }

  function AfterFirstCall(w: Worker, auth: Option<ResolvedAuth>, result: CallResult): Worker {
    var onSuccess := if auth.Some? then Crediting(auth.value.profileId, true) else Posting(ResponseFinished);
    var onFailure :=
      if result.Fails? && result.reason.Some? && auth.Some?
      then Reporting(auth.value.profileId, result.reason.value) else Posting(ResponseError);
    AfterCall(w, result, onSuccess, onFailure)
  }

  function AfterRotation(w: Worker, failed: string, next: Option<ResolvedAuth>): Worker {
    w.(stage := if next.Some? && next.value.profileId != failed then SecondCall(next.value) else Lookup)
  }

  function AfterChain(w: Worker, i: nat, auth: Option<ResolvedAuth>): Worker {
    w.(stage := if auth.None? then Chain(i + 1) else ModelCall(i, auth.value))
  }

  // The store calls of a stage. A report whose delay overflows is undefined in the source;
  // the store is then left alone.
  function StoreAfter(st: Store, w: Worker, now: int): Store {
    match w.stage
    case Reporting(id, reason) => if FailureDefined(st, id, reason) then Fail(st, id, reason, now) else st
    case Crediting(id, _) => Succeed(st, id, now)
    case Pinning(id) => st.(pin := id)
    case _ => st
  }

  function WorkerAfter(st: Store, w: Worker, now: int, result: CallResult): Worker {
    match w.stage
    case Starting => w.(stage := FirstCall(ResolveWithFallback(st, w.provider, now)))
    case FirstCall(auth) => AfterFirstCall(w, auth, result)
    case Reporting(id, _) => w.(stage := Rotating(id))
    case Rotating(failed) => AfterRotation(w, failed, ResolveWithFallback(st, w.provider, now))
    case SecondCall(next) => AfterCall(w, result, Crediting(next.profileId, true), Lookup)
    case Lookup => w.(lookedUp := true, stage := if w.chain.Some? then Chain(0) else Dead)
    case Chain(i) =>
      if i >= |w.Models()| then w.(stage := Posting(ResponseError))
      else AfterChain(w, i, Resolve(st, w.Models()[i], now))
    case ModelCall(i, auth) => AfterCall(w, result, Crediting(auth.profileId, false), Chain(i + 1))
    case Crediting(id, thenPin) => w.(stage := if thenPin then Pinning(id) else Posting(ResponseFinished))
    case Pinning(_) => w.(stage := Posting(ResponseFinished))
    case Posting(outcome) => w.(posted := w.posted + [outcome], stage := Decrementing)
    case Decrementing => w.(stage := Done)
    case Done => w
    case Dead => w
  }

  function Take(e: Engine, s: Step): Engine {
    match s
    case Launch(provider, chain, prepared) =>
      e.(activeTasks := e.activeTasks + 1, workers := e.workers + [Spawn(provider, chain, prepared)])
    case Advance(i, now, result) =>
      if i >= |e.workers| then e
      else
        var w := e.workers[i];
        Engine(StoreAfter(e.store, w, now),
               if w.stage.Decrementing? then e.activeTasks - 1 else e.activeTasks,
               e.workers[i := WorkerAfter(e.store, w, now, result)])
    case StoreEvent(ev) => if AuthRuns.Defined(e.store, ev) then e.(store := AuthRuns.Apply(e.store, ev)) else e
  }

  function Run(e: Engine, steps: seq<Step>): Engine {
    if steps == [] then e else Take(Run(e, steps[..|steps| - 1]), steps[|steps| - 1])
  }

  function Fresh(store: Store): Engine {
    Engine(store, 0, [])
  }

  // ---- The invariant of one worker ----

  predicate NoneSucceeded(calls: seq<CallResult>) {
    forall k :: 0 <= k < |calls| ==> calls[k].Fails?
  }

  // Exactly the last call succeeded.
  predicate LastSucceeded(calls: seq<CallResult>) {
    calls != [] && calls[|calls| - 1].Succeeds? && NoneSucceeded(calls[..|calls| - 1])
  }

  predicate Explains(outcome: Posted, calls: seq<CallResult>) {
    match outcome
    case ResponseFinished => LastSucceeded(calls)
    case ResponseError => NoneSucceeded(calls)
  }

  predicate Sound(w: Worker) {
    && |w.calls| <= 2 + |w.Models()|
    && (w.stage.Dead? <==> w.Threw())
    && match w.stage
       case Starting => w.calls == [] && w.posted == [] && !w.lookedUp
       case FirstCall(_) => w.calls == [] && w.posted == [] && !w.lookedUp
       case Reporting(_, _) => |w.calls| == 1 && NoneSucceeded(w.calls) && w.posted == [] && !w.lookedUp
       case Rotating(_) => |w.calls| == 1 && NoneSucceeded(w.calls) && w.posted == [] && !w.lookedUp
       case SecondCall(_) => |w.calls| == 1 && NoneSucceeded(w.calls) && w.posted == [] && !w.lookedUp
       case Lookup => |w.calls| <= 2 && NoneSucceeded(w.calls) && w.posted == [] && !w.lookedUp
       case Chain(i) => |w.calls| <= 2 + i && i <= |w.Models()| && NoneSucceeded(w.calls) && w.posted == []
       case ModelCall(i, _) => |w.calls| <= 2 + i && i < |w.Models()| && NoneSucceeded(w.calls) && w.posted == []
       case Crediting(_, _) => LastSucceeded(w.calls) && w.posted == []
       case Pinning(_) => LastSucceeded(w.calls) && w.posted == []
       case Posting(outcome) => Explains(outcome, w.calls) && w.posted == []
       case Decrementing => |w.posted| == 1 && Explains(w.posted[0], w.calls)
       case Done => |w.posted| == 1 && Explains(w.posted[0], w.calls)
       case Dead => w.posted == []
  }

  // One more call after failed ones.
  lemma CallRecorded(calls: seq<CallResult>, result: CallResult)
    requires NoneSucceeded(calls)
    ensures var now := calls + [result];
            match result
            case Succeeds => LastSucceeded(now)
            case Fails(_) => NoneSucceeded(now)
            case Throws => now[|now| - 1].Throws?
    ensures Throws in calls + [result] <==> result.Throws?
  {
    assert (calls + [result])[..|calls|] == calls;
  }

  lemma StepKeepsSound(st: Store, w: Worker, now: int, result: CallResult)
    requires Sound(w)
    ensures Sound(WorkerAfter(st, w, now, result))
  {
    hide ResolveWithFallback, Resolve, NoneSucceeded, LastSucceeded;
    NoCallsYet();
    if w.stage.FirstCall? {
      FirstCallKeepsSound(w, w.stage.auth, result);
    } else if w.stage.SecondCall? {
      CallKeepsSound(w, result, Crediting(w.stage.next.profileId, true), Lookup);
    } else if w.stage.ModelCall? {
      CallKeepsSound(w, result, Crediting(w.stage.auth1.profileId, false), Chain(w.stage.i + 1));
    }
  }

  lemma FirstCallKeepsSound(w: Worker, auth: Option<ResolvedAuth>, result: CallResult)
    requires w.calls == [] && w.posted == [] && w.prepared && !w.lookedUp
    ensures Sound(AfterFirstCall(w, auth, result))
  {
    hide Sound, AfterCall;
    NoCallsYet();
    var onSuccess := if auth.Some? then Crediting(auth.value.profileId, true) else Posting(ResponseFinished);
    var onFailure :=
      if result.Fails? && result.reason.Some? && auth.Some?
      then Reporting(auth.value.profileId, result.reason.value) else Posting(ResponseError);
    CallKeepsSound(w, result, onSuccess, onFailure);
  }

  predicate FitsFailure(w: Worker, next: Stage) {
    || next == Posting(ResponseError)
    || (next.Reporting? && w.calls == [] && !w.lookedUp)
    || (next.Lookup? && |w.calls| <= 1 && !w.lookedUp)
    || (next.Chain? && next.i <= |w.Models()| && |w.calls| + 1 <= 2 + next.i)
  }

  lemma CallKeepsSound(w: Worker, result: CallResult, onSuccess: Stage, onFailure: Stage)
    requires NoneSucceeded(w.calls) && w.posted == [] && |w.calls| < 2 + |w.Models()|
    requires w.prepared && (w.lookedUp ==> w.chain.Some?)
    requires onSuccess.Crediting? || onSuccess == Posting(ResponseFinished)
    requires FitsFailure(w, onFailure)
    ensures Sound(AfterCall(w, result, onSuccess, onFailure))
  {
    hide NoneSucceeded, LastSucceeded;
    CallRecorded(w.calls, result);
  }

  lemma NoCallsYet()
    ensures NoneSucceeded([])
  {
  }

  // ---- The invariant of the engine ----

  function Outstanding(ws: seq<Worker>): nat {
    if ws == [] then 0
    else Outstanding(ws[..|ws| - 1]) + (if ws[|ws| - 1].stage.Done? then 0 else 1)
  }

  lemma {:induction false} OutstandingUpdate(ws: seq<Worker>, i: nat, w: Worker)
    requires i < |ws|
    ensures Outstanding(ws[i := w]) + (if ws[i].stage.Done? then 0 else 1) ==
            Outstanding(ws) + (if w.stage.Done? then 0 else 1)
    decreases |ws|
  {
    var earlier := ws[..|ws| - 1];
    if i < |ws| - 1 {
      OutstandingUpdate(earlier, i, w);
      assert ws[i := w][..|ws| - 1] == earlier[i := w];
    } else {
      assert ws[i := w][..|ws| - 1] == earlier;
    }
  }

  predicate Balanced(e: Engine) {
    e.activeTasks == Outstanding(e.workers) && forall i :: 0 <= i < |e.workers| ==> Sound(e.workers[i])
  }

  lemma SpawnIsSound(provider: string, chain: Option<seq<string>>, prepared: bool)
    ensures Sound(Spawn(provider, chain, prepared)) && !Spawn(provider, chain, prepared).stage.Done?
  {
  }

  lemma TakeKeepsBalanced(e: Engine, s: Step)
    requires Balanced(e)
    ensures Balanced(Take(e, s))
  {
    hide WorkerAfter, StoreAfter, Sound;
    match s
    case Launch(provider, chain, prepared) =>
      SpawnIsSound(provider, chain, prepared);
      var ws := e.workers + [Spawn(provider, chain, prepared)];
      assert ws[..|ws| - 1] == e.workers;
    case Advance(i, now, result) =>
      if i < |e.workers| {
        var w := e.workers[i];
        StepKeepsSound(e.store, w, now, result);
        OnlyDecrementingEnds(e.store, w, now, result);
        OutstandingUpdate(e.workers, i, WorkerAfter(e.store, w, now, result));
      }
    case StoreEvent(_) =>
  }

  lemma OnlyDecrementingEnds(st: Store, w: Worker, now: int, result: CallResult)
    ensures WorkerAfter(st, w, now, result).stage.Done? <==> w.stage.Decrementing? || w.stage.Done?
  {
    hide ResolveWithFallback, Resolve;
  }

  // Every interleaving keeps the counter equal to the number of workers that have not
  // decremented, and every worker within its bound of calls.
  lemma {:induction false} RunsAreBalanced(store: Store, steps: seq<Step>)
    ensures Balanced(Run(Fresh(store), steps))
    decreases |steps|
  {
    if steps != [] {
      RunsAreBalanced(store, steps[..|steps| - 1]);
      TakeKeepsBalanced(Run(Fresh(store), steps[..|steps| - 1]), steps[|steps| - 1]);
    }
  }

  lemma {:induction false} NoneOutstanding(ws: seq<Worker>)
    ensures Outstanding(ws) == 0 <==> forall i :: 0 <= i < |ws| ==> ws[i].stage.Done?
    decreases |ws|
  {
    if ws != [] {
      var earlier := ws[..|ws| - 1];
      NoneOutstanding(earlier);
      assert forall i :: 0 <= i < |earlier| ==> earlier[i] == ws[i];
    }
  }

  // shutdown() leaves its wait loop exactly when every worker has posted its one outcome,
  // which tells whether its last call succeeded, and has decremented.
  lemma ShutdownWaitsForAll(store: Store, steps: seq<Step>)
    ensures var e := Run(Fresh(store), steps);
            && e.activeTasks >= 0
            && (e.activeTasks == 0 <==> forall i :: 0 <= i < |e.workers| ==> e.workers[i].stage.Done?)
            && (e.activeTasks == 0 ==> forall i :: 0 <= i < |e.workers| ==>
                  |e.workers[i].posted| == 1 && Explains(e.workers[i].posted[0], e.workers[i].calls)
                  && |e.workers[i].calls| <= 2 + |e.workers[i].Models()|)
  {
    RunsAreBalanced(store, steps);
    NoneOutstanding(Run(Fresh(store), steps).workers);
  }

  // ---- Workers end, or hang the shutdown for ever ----

  // Steps a worker can still take.
  function Remaining(w: Worker): int {
    var n := 2 * |w.Models()|;
    match w.stage
    case Starting => n + 11
    case FirstCall(_) => n + 10
    case Reporting(_, _) => n + 9
    case Rotating(_) => n + 8
    case SecondCall(_) => n + 7
    case Lookup => n + 6
    case Chain(i) => n - 2 * i + 5
    case ModelCall(i, _) => n - 2 * i + 4
    case Crediting(_, _) => 4
    case Pinning(_) => 3
    case Posting(_) => 2
    case Decrementing => 1
    case Done => 0
    case Dead => 0
  }

  // A worker that is neither done nor dead gets closer to its end with every step it takes.
  lemma WorkersEnd(st: Store, w: Worker, now: int, result: CallResult)
    requires Sound(w)
    ensures var w' := WorkerAfter(st, w, now, result);
            if w.stage.Done? || w.stage.Dead? then w' == w && Remaining(w) == 0
            else 0 <= Remaining(w') < Remaining(w) <= 2 * |w.Models()| + 11
  {
    hide ResolveWithFallback, Resolve;
  }

  function Turns(steps: seq<Step>, i: nat): nat {
    if steps == [] then 0
    else
      var s := steps[|steps| - 1];
      Turns(steps[..|steps| - 1], i) + (if s.Advance? && s.w == i then 1 else 0)
  }

  predicate Over(w: Worker) {
    w.stage.Done? || w.stage.Dead?
  }

  // However the others interleave, a worker is over once it has had its turns.
  lemma {:induction false} EnoughTurnsEnd(e: Engine, steps: seq<Step>, i: nat)
    requires Balanced(e) && i < |e.workers|
    ensures Balanced(Run(e, steps)) && i < |Run(e, steps).workers|
    ensures var w := Run(e, steps).workers[i];
            Over(w) || Remaining(w) + Turns(steps, i) <= Remaining(e.workers[i])
    ensures Turns(steps, i) >= 2 * |e.workers[i].Models()| + 11 ==> Over(Run(e, steps).workers[i])
    decreases |steps|
  {
    hide WorkerAfter, StoreAfter, Sound;
    RemainingBounds(e.workers[i]);
    if steps != [] {
      var earlier, s := steps[..|steps| - 1], steps[|steps| - 1];
      EnoughTurnsEnd(e, earlier, i);
      var before := Run(e, earlier);
      TakeKeepsBalanced(before, s);
      if s.Advance? {
        WorkersEnd(before.store, before.workers[i], s.now, s.result);
      }
      RemainingBounds(Run(e, steps).workers[i]);
    }
  }

  lemma RemainingBounds(w: Worker)
    requires Sound(w)
    ensures Remaining(w) <= 2 * |w.Models()| + 11
    ensures !Over(w) ==> Remaining(w) > 0
  {
  }

  // A task that threw is never counted down: shutdown() then waits for ever.
  lemma {:induction false} DeadStaysDead(e: Engine, steps: seq<Step>, i: nat)
    requires i < |e.workers| && e.workers[i].stage.Dead?
    ensures i < |Run(e, steps).workers| && Run(e, steps).workers[i].stage.Dead?
    decreases |steps|
  {
    if steps != [] {
      DeadStaysDead(e, steps[..|steps| - 1], i);
    }
  }

  // An exception keeps the counter above zero in every continuation.
  lemma ThrowHangsShutdown(store: Store, before: seq<Step>, after: seq<Step>, i: nat)
    requires i < |Run(Fresh(store), before).workers| && Run(Fresh(store), before).workers[i].Threw()
    ensures Run(Run(Fresh(store), before), after).activeTasks > 0
  {
    var e := Run(Fresh(store), before);
    RunsAreBalanced(store, before);
    DeadStaysDead(e, after, i);
    RunConcat(Fresh(store), before, after);
    ShutdownWaitsForAll(store, before + after);
  }

  // One prompt whose only call throws is enough, whatever the store.
  lemma OneThrowHangs(store: Store, chain: Option<seq<string>>, after: seq<Step>)
    ensures var steps := [Launch("claude", chain, true), Advance(0, 0, Succeeds), Advance(0, 0, Throws)];
            Run(Run(Fresh(store), steps), after).activeTasks > 0
  {
    hide ResolveWithFallback;
    var a, b, c := Launch("claude", chain, true), Advance(0, 0, Succeeds), Advance(0, 0, Throws);
    assert [a, b, c][..2] == [a, b] && [a, b][..1] == [a] && [a][..0] == [];
    var one := Take(Fresh(store), a);
    assert Run(Fresh(store), [a]) == one && one.workers == [Spawn("claude", chain, true)];
    var two := Take(one, b);
    assert Run(Fresh(store), [a, b]) == two && two.workers[0].stage.FirstCall? && two.workers[0].calls == [];
    assert Run(Fresh(store), [a, b, c]) == Take(two, c);
    assert Take(two, c).workers[0].calls == [] + [Throws];
    ThrowHangsShutdown(store, [a, b, c], after, 0);
  }

  // So is one whose agent name makes reading the prompt files throw.
  lemma PreparationHangs(store: Store, provider: string, chain: Option<seq<string>>, after: seq<Step>)
    ensures Run(Run(Fresh(store), [Launch(provider, chain, false)]), after).activeTasks > 0
  {
    var a := Launch(provider, chain, false);
    assert [a][..0] == [];
    assert Run(Fresh(store), [a]) == Take(Fresh(store), a);
    ThrowHangsShutdown(store, [a], after, 0);
  }

  // ---- Looking up the model fallback chain ----

  predicate Mentions(model: string, part: string) {
    Find(model, part, 0).Some?
  }

  predicate WellFormedEntry(entry: Json) {
    entry.StrValue("provider", "").Some? && entry.StrValue("model", "").Some?
  }

  // model_fallback_chain: the providers it names, or None where an entry of the configuration
  // makes it throw.
  function ModelChain(config: Json, model: string): Option<seq<string>> {
    if config.Contains("model_fallback") && config.fields["model_fallback"].Contains(model) then
      var entries := config.fields["model_fallback"].fields[model].Elements();
      if exists i :: 0 <= i < |entries| && !WellFormedEntry(entries[i]) then None
      else Some(seq(|entries|, i requires 0 <= i < |entries| => entries[i].StrValue("provider", "").value))
    else if Mentions(model, "claude") || Mentions(model, "anthropic") then Some(["openai", "ollama"])
    else if Mentions(model, "gpt") || Mentions(model, "openai") then Some(["claude", "ollama"])
    else Some(["claude", "openai", "ollama"])
  }

  // A chain written as names instead of objects.
  const NAMES_ONLY: Json := Obj(map["model_fallback" := Obj(map["claude-sonnet-4-6" := Arr([Str("gpt-5.4")])])])

  lemma NamesOnlyThrows()
    ensures ModelChain(NAMES_ONLY, "claude-sonnet-4-6") == None
  {
    var entries := NAMES_ONLY.fields["model_fallback"].fields["claude-sonnet-4-6"].Elements();
    assert !WellFormedEntry(entries[0]);
  }

  const ONE_KEY: AuthProfile := AuthProfile("claude:k", "claude", ApiKey, "k", "sk", "", "", "", 0, "manual", 0)

  function OneKeyStore(): Store {
    Store([ONE_KEY], map[], map[], "")
  }

  const RATE_LIMITED: Step := Advance(0, 0, Fails(Some(RateLimit)))

  // With it, one rate limit on the only credential hangs the shutdown, though no call threw.
  lemma LookupHangs(after: seq<Step>)
    ensures var launch := Launch("claude", ModelChain(NAMES_ONLY, "claude-sonnet-4-6"), true);
            var steps := [launch, RATE_LIMITED, RATE_LIMITED, RATE_LIMITED, RATE_LIMITED, RATE_LIMITED];
            var e := Run(Fresh(OneKeyStore()), steps);
            && |e.workers| == 1 && Throws !in e.workers[0].calls
            && Run(e, after).activeTasks > 0
  {
    hide ModelChain, Take, OneKeyStore, Run;
    NamesOnlyThrows();
    var launch, next := Launch("claude", None, true), RATE_LIMITED;
    SixSteps(Fresh(OneKeyStore()), launch, next);
    FiveTurns();
    ThrowHangsShutdown(OneKeyStore(), [launch, next, next, next, next, next], after, 0);
  }

  lemma FiveTurns()
    ensures var next := RATE_LIMITED;
            var e := Take(Take(Take(Take(Take(Take(
              Fresh(OneKeyStore()), Launch("claude", None, true)), next), next), next), next), next);
            |e.workers| == 1 && e.workers[0].Threw() && Throws !in e.workers[0].calls
  {
    var store, next := OneKeyStore(), RATE_LIMITED;
    OnlyKeyResolves();
    hide ResolveWithFallback, FailureDefined, Fail;
    var failed := Fail(store, "claude:k", RateLimit, 0);
    var w := Spawn("claude", None, true);
    var e1 := Take(Take(Fresh(store), Launch("claude", None, true)), next);
    assert e1 == Engine(store, 1, [w.(stage := FirstCall(Some(Resolved(ONE_KEY))))]);
    var e2 := Take(e1, next);
    assert [] + [next.result] == [next.result];
    assert e2 == Engine(store, 1, [w.(stage := Reporting("claude:k", RateLimit), calls := [next.result])]);
    var e3 := Take(e2, next);
    assert e3 == Engine(failed, 1, [w.(stage := Rotating("claude:k"), calls := [next.result])]);
    var e4 := Take(e3, next);
    assert e4 == Engine(failed, 1, [w.(stage := Lookup, calls := [next.result])]);
    assert Take(e4, next).workers == [w.(stage := Dead, lookedUp := true, calls := [next.result])];
  }

  lemma SixSteps(e: Engine, a: Step, b: Step)
    ensures Run(e, [a, b, b, b, b, b]) == Take(Take(Take(Take(Take(Take(e, a), b), b), b), b), b)
  {
    hide Take;
    RunMore(e, [], a);
    RunMore(e, [a], b);
    RunMore(e, [a, b], b);
    RunMore(e, [a, b, b], b);
    RunMore(e, [a, b, b, b], b);
    RunMore(e, [a, b, b, b, b], b);
    assert [] + [a] == [a] && Run(e, []) == e && [a] + [b] == [a, b] && [a, b] + [b] == [a, b, b];
    assert [a, b, b] + [b] == [a, b, b, b] && [a, b, b, b] + [b] == [a, b, b, b, b];
    assert [a, b, b, b, b] + [b] == [a, b, b, b, b, b];
  }

  lemma RunMore(e: Engine, steps: seq<Step>, s: Step)
    ensures Run(e, steps + [s]) == Take(Run(e, steps), s)
  {
    assert (steps + [s])[..|steps|] == steps;
  }

  lemma OnlyKeyResolves()
    ensures var store := OneKeyStore();
            && ResolveWithFallback(store, "claude", 0) == Some(Resolved(ONE_KEY))
            && FailureDefined(store, "claude:k", RateLimit)
            && ResolveWithFallback(Fail(store, "claude:k", RateLimit, 0), "claude", 0) == None
  {
    var store := OneKeyStore();
    var failed := Fail(store, "claude:k", RateLimit, 0);
    PickMeetsSpec(store, "claude", 0);
    assert Eligible(store, "claude", 0, 0);
    PickMeetsSpec(failed, "claude", 0);
    assert Power(5, 0) == 1 && CooledDown(failed, "claude:k", 0);
    assert ChainOf(store, "claude") == ["claude"] == ChainOf(failed, "claude") && ["claude"][1..] == [];
    assert FirstResolved(failed, ["claude"][1..], 0) == None;
  }

  // ---- When shutdown ends ----

  ghost predicate NoThrows(e: Engine) {
    forall i :: 0 <= i < |e.workers| ==> !e.workers[i].Threw()
  }

  // Once every worker is over, the counter is zero exactly when none threw.
  lemma OverDecides(e: Engine)
    requires Balanced(e) && forall i :: 0 <= i < |e.workers| ==> Over(e.workers[i])
    ensures e.activeTasks == 0 <==> NoThrows(e)
  {
    NoneOutstanding(e.workers);
  }

  predicate NoLaunch(steps: seq<Step>) {
    forall k :: 0 <= k < |steps| ==> !steps[k].Launch?
  }

  lemma {:induction false} WorkersStay(e: Engine, steps: seq<Step>)
    requires NoLaunch(steps)
    ensures |Run(e, steps).workers| == |e.workers|
    decreases |steps|
  {
    if steps != [] {
      WorkersStay(e, steps[..|steps| - 1]);
    }
  }

  // shutdown() after any run: whenever each worker has had its turns, the wait is over if and
  // only if nothing threw in the whole run: no preparation, no provider call, no chain lookup.
  lemma ShutdownEndsExactly(store: Store, before: seq<Step>, waiting: seq<Step>)
    requires NoLaunch(waiting)
    requires var e := Run(Fresh(store), before);
             forall i :: 0 <= i < |e.workers| ==> Turns(waiting, i) >= 2 * |e.workers[i].Models()| + 11
    ensures var end := Run(Run(Fresh(store), before), waiting);
            end.activeTasks == 0 <==> NoThrows(end)
  {
    hide Take, Sound;
    var e := Run(Fresh(store), before);
    var end := Run(e, waiting);
    RunsAreBalanced(store, before);
    WorkersStay(e, waiting);
    RunConcat(Fresh(store), before, waiting);
    RunsAreBalanced(store, before + waiting);
    forall i | 0 <= i < |end.workers| ensures Over(end.workers[i]) {
      EnoughTurnsEnd(e, waiting, i);
    }
    OverDecides(end);
  }

  lemma {:induction false} RunConcat(e: Engine, a: seq<Step>, b: seq<Step>)
    ensures Run(e, a + b) == Run(Run(e, a), b)
    decreases |b|
  {
    if b == [] {
      assert a + b == a;
    } else {
      RunConcat(e, a, b[..|b| - 1]);
      assert (a + b)[..|a + b| - 1] == a + b[..|b| - 1];
    }
  }

  // ---- The rotation guard ----

  // Alone, a worker never sees the profile it has just reported again before its deadline:
  // the test for an equal id only matters when another thread has cleared the cooldown.
  lemma RotationMovesOn(st: Store, id: string, reason: CooldownReason, at: int, provider: string, now: int)
    requires FailureDefined(st, id, reason)
    requires now < at + Delay(reason, EntryOf(st, id).consecutive + 1).value
    ensures var next := ResolveWithFallback(Fail(st, id, reason, at), provider, now);
            next.None? || next.value.profileId != id
  {
    var st' := Fail(st, id, reason, at);
    assert CooledDown(st', id, now);
    var chain := ChainOf(st', provider);
    var k := FirstResolvedIsFirst(st', chain, now);
    if k < |chain| {
      AuthRuns.ResolvedIsNotCooling(st', chain[k], now);
    }
  }
}
