/**
What one task of the chat engine does to the credential store and posts, path by path, when no
other task interferes.
*/
module ChatOutcome {
  import opened Text
  import opened JsonValue
  import opened AuthStore
  import opened ChatWorker

  // One turn of a worker: the clock, and what a provider call does if the turn makes one.
  datatype Turn = At(now: int, result: CallResult)

  datatype Solo = Solo(store: Store, worker: Worker)

  function Alone(s: Solo, turns: seq<Turn>): Solo
    decreases |turns|
  {
    if turns == [] then s
    else
      var t := turns[0];
      Alone(Solo(StoreAfter(s.store, s.worker, t.now), WorkerAfter(s.store, s.worker, t.now, t.result)), turns[1..])
  }

  function Steps(turns: seq<Turn>): seq<Step> {
    seq(|turns|, i requires 0 <= i < |turns| => Advance(0, turns[i].now, turns[i].result))
  }

  lemma {:induction false} TurnsAppend(s: Solo, a: seq<Turn>, b: seq<Turn>)
    ensures Alone(s, a + b) == Alone(Alone(s, a), b)
    decreases |a|
  {
    hide StoreAfter, WorkerAfter;
    if a == [] {
      assert a + b == b;
    } else {
      var t := a[0];
      var s' := Solo(StoreAfter(s.store, s.worker, t.now), WorkerAfter(s.store, s.worker, t.now, t.result));
      assert (a + b)[1..] == a[1..] + b;
      TurnsAppend(s', a[1..], b);
    }
  }

  // A worker on its own is an engine with no other.
  lemma {:induction false} AloneIsARun(e: Engine, turns: seq<Turn>)
    requires |e.workers| == 1
    ensures var r, s := Run(e, Steps(turns)), Alone(Solo(e.store, e.workers[0]), turns);
            r.store == s.store && r.workers == [s.worker]
    decreases |turns|
  {
    hide StoreAfter, WorkerAfter;
    if turns == [] {
      assert e.workers == [e.workers[0]];
    } else {
      var n := |turns| - 1;
      AloneIsARun(e, turns[..n]);
      assert Steps(turns)[..n] == Steps(turns[..n]) && turns == turns[..n] + [turns[n]];
      TurnsAppend(Solo(e.store, e.workers[0]), turns[..n], [turns[n]]);
      assert [turns[n]][1..] == [];
    }
  }

  function Task(st: Store, provider: string, chain: Option<seq<string>>): Solo {
    Solo(st, Spawn(provider, chain, true))
  }

  // How a task ends: the store it leaves, what it posted and which calls it made.
  predicate Ends(s: Solo, store: Store, posted: Posted, calls: seq<CallResult>) {
    s.store == store && s.worker.stage.Done? && s.worker.posted == [posted] && s.worker.calls == calls
  }

  lemma Unfold(s: Solo, t: Turn, rest: seq<Turn>)
    ensures Alone(s, [t] + rest) ==
            Alone(Solo(StoreAfter(s.store, s.worker, t.now), WorkerAfter(s.store, s.worker, t.now, t.result)), rest)
  {
    hide StoreAfter, WorkerAfter;
    assert ([t] + rest)[0] == t && ([t] + rest)[1..] == rest;
  }

  // ---- The end of a path ----

  // Posting and counting down.
  lemma Closes(st: Store, w: Worker, outcome: Posted, a: Turn, b: Turn)
    requires w.stage == Posting(outcome) && w.posted == []
    ensures Ends(Alone(Solo(st, w), [a, b]), st, outcome, w.calls)
  {
    assert [a] + [b] == [a, b] && [b] + [] == [b];
    Unfold(Solo(st, w), a, [b]);
    Unfold(Solo(st, w.(posted := w.posted + [outcome], stage := Decrementing)), b, []);
  }

  // A call that succeeded credits its profile, pins it if it was not a model fallback, and is
  // posted.
  lemma Credits(st: Store, w: Worker, id: string, a: Turn, b: Turn, c: Turn, d: Turn)
    requires w.stage == Crediting(id, true) && w.posted == []
    ensures Ends(Alone(Solo(st, w), [a, b, c, d]), Succeed(st, id, a.now).(pin := id), ResponseFinished, w.calls)
  {
    hide Succeed;
    assert [a] + [b, c, d] == [a, b, c, d] && [b] + [c, d] == [b, c, d];
    var st' := Succeed(st, id, a.now);
    Unfold(Solo(st, w), a, [b, c, d]);
    Unfold(Solo(st', w.(stage := Pinning(id))), b, [c, d]);
    Closes(st'.(pin := id), w.(stage := Posting(ResponseFinished)), ResponseFinished, c, d);
  }

  lemma CreditsModel(st: Store, w: Worker, id: string, a: Turn, b: Turn, c: Turn)
    requires w.stage == Crediting(id, false) && w.posted == []
    ensures Ends(Alone(Solo(st, w), [a, b, c]), Succeed(st, id, a.now), ResponseFinished, w.calls)
  {
    hide Succeed;
    assert [a] + [b, c] == [a, b, c];
    Unfold(Solo(st, w), a, [b, c]);
    Closes(Succeed(st, id, a.now), w.(stage := Posting(ResponseFinished)), ResponseFinished, b, c);
  }

  // ---- The first try ----

  lemma Begins(st: Store, provider: string, chain: Option<seq<string>>, a: Turn, b: Turn, rest: seq<Turn>)
    ensures var auth := ResolveWithFallback(st, provider, a.now);
            var w := Spawn(provider, chain, true).(stage := FirstCall(auth));
            Alone(Task(st, provider, chain), [a, b] + rest) == Alone(Solo(st, AfterFirstCall(w, auth, b.result)), rest)
  {
    hide ResolveWithFallback, AfterFirstCall;
    assert [a, b] + rest == [a] + ([b] + rest);
    Unfold(Task(st, provider, chain), a, [b] + rest);
    var auth := ResolveWithFallback(st, provider, a.now);
    Unfold(Solo(st, Spawn(provider, chain, true).(stage := FirstCall(auth))), b, rest);
  }

  // The first call succeeds: its profile is credited and pinned; without one the store is left alone.
  lemma FirstTrySucceeds(st: Store, provider: string, chain: Option<seq<string>>,
                         a: Turn, b: Turn, c: Turn, d: Turn, e: Turn, f: Turn)
    requires b.result == Succeeds
    ensures var auth := ResolveWithFallback(st, provider, a.now);
            && (auth.None? ==> Ends(Alone(Task(st, provider, chain), [a, b, c, d]), st, ResponseFinished, [Succeeds]))
            && (auth.Some? ==>
                  Ends(Alone(Task(st, provider, chain), [a, b, c, d, e, f]),
                       Succeed(st, auth.value.profileId, c.now).(pin := auth.value.profileId),
                       ResponseFinished, [Succeeds]))
  {
    hide ResolveWithFallback, Succeed, Ends;
    var auth := ResolveWithFallback(st, provider, a.now);
    var w := Spawn(provider, chain, true).(stage := FirstCall(auth));
    assert [] + [b.result] == [Succeeds];
    var w' := AfterFirstCall(w, auth, b.result);
    if auth.None? {
      assert [a, b] + [c, d] == [a, b, c, d];
      Begins(st, provider, chain, a, b, [c, d]);
      Closes(st, w', ResponseFinished, c, d);
    } else {
      assert [a, b] + [c, d, e, f] == [a, b, c, d, e, f];
      Begins(st, provider, chain, a, b, [c, d, e, f]);
      Credits(st, w', auth.value.profileId, c, d, e, f);
    }
  }

  // It fails for no reason that is known, or without a profile: an error is posted, nothing is
  // reported and nothing else tried.
  lemma UnclassifiedFailure(st: Store, provider: string, chain: Option<seq<string>>, a: Turn, b: Turn, c: Turn, d: Turn)
    requires b.result.Fails? && (b.result.reason.None? || ResolveWithFallback(st, provider, a.now).None?)
    ensures Ends(Alone(Task(st, provider, chain), [a, b, c, d]), st, ResponseError, [b.result])
  {
    hide ResolveWithFallback, Ends;
    var auth := ResolveWithFallback(st, provider, a.now);
    var w := Spawn(provider, chain, true).(stage := FirstCall(auth));
    assert [a, b] + [c, d] == [a, b, c, d] && [] + [b.result] == [b.result];
    Begins(st, provider, chain, a, b, [c, d]);
    Closes(st, AfterFirstCall(w, auth, b.result), ResponseError, c, d);
  }

  // ---- Rotation ----

  // It fails for a known reason: that is reported and another profile looked for.
  lemma Rotates(st: Store, provider: string, chain: Option<seq<string>>,
                a: Turn, b: Turn, c: Turn, d: Turn, rest: seq<Turn>)
    requires ResolveWithFallback(st, provider, a.now).Some? && b.result.Fails? && b.result.reason.Some?
    requires FailureDefined(st, ResolveWithFallback(st, provider, a.now).value.profileId, b.result.reason.value)
    ensures var id := ResolveWithFallback(st, provider, a.now).value.profileId;
            var failed := Fail(st, id, b.result.reason.value, c.now);
            var next := ResolveWithFallback(failed, provider, d.now);
            var w := Spawn(provider, chain, true).(calls := [b.result]);
            Alone(Task(st, provider, chain), [a, b, c, d] + rest) ==
            Alone(Solo(failed, w.(stage := if next.Some? && next.value.profileId != id then SecondCall(next.value)
                                           else Lookup)), rest)
  {
    hide ResolveWithFallback, FailureDefined, Fail;
    var auth := ResolveWithFallback(st, provider, a.now);
    var id, reason := auth.value.profileId, b.result.reason.value;
    var failed, w := Fail(st, id, reason, c.now), Spawn(provider, chain, true).(calls := [b.result]);
    assert [a, b, c, d] + rest == [a, b] + ([c] + ([d] + rest)) && [] + [b.result] == [b.result];
    Begins(st, provider, chain, a, b, [c] + ([d] + rest));
    Unfold(Solo(st, w.(stage := Reporting(id, reason))), c, [d] + rest);
    Unfold(Solo(failed, w.(stage := Rotating(id))), d, rest);
  }

  // The other profile answers: the first keeps its report, the second is credited and pinned.
  lemma SecondTrySucceeds(st: Store, provider: string, chain: Option<seq<string>>,
                          a: Turn, b: Turn, c: Turn, d: Turn, e: Turn, rest: seq<Turn>)
    requires ResolveWithFallback(st, provider, a.now).Some? && b.result.Fails? && b.result.reason.Some?
    requires FailureDefined(st, ResolveWithFallback(st, provider, a.now).value.profileId, b.result.reason.value)
    requires e.result == Succeeds && |rest| == 4
    ensures var id := ResolveWithFallback(st, provider, a.now).value.profileId;
            var failed := Fail(st, id, b.result.reason.value, c.now);
            var next := ResolveWithFallback(failed, provider, d.now);
            next.Some? && next.value.profileId != id ==>
              Ends(Alone(Task(st, provider, chain), [a, b, c, d] + ([e] + rest)),
                   Succeed(failed, next.value.profileId, rest[0].now).(pin := next.value.profileId),
                   ResponseFinished, [b.result, Succeeds])
  {
    hide ResolveWithFallback, FailureDefined, Fail, Succeed, Ends;
    var id := ResolveWithFallback(st, provider, a.now).value.profileId;
    var failed := Fail(st, id, b.result.reason.value, c.now);
    var next := ResolveWithFallback(failed, provider, d.now);
    if next.Some? && next.value.profileId != id {
      Rotates(st, provider, chain, a, b, c, d, [e] + rest);
      var w := Spawn(provider, chain, true).(calls := [b.result]);
      Unfold(Solo(failed, w.(stage := SecondCall(next.value))), e, rest);
      assert [b.result] + [Succeeds] == [b.result, Succeeds] && rest == [rest[0], rest[1], rest[2], rest[3]];
      Credits(failed, w.(calls := [b.result, Succeeds], stage := Crediting(next.value.profileId, true)),
              next.value.profileId, rest[0], rest[1], rest[2], rest[3]);
    }
  }

  // It does not: its failure is not reported, and the chain is looked up.
  lemma SecondTryFails(st: Store, w: Worker, next: ResolvedAuth, a: Turn, b: Turn, rest: seq<Turn>)
    requires w.stage == SecondCall(next) && a.result.Fails? && w.chain.Some?
    ensures Alone(Solo(st, w), [a, b] + rest) ==
            Alone(Solo(st, w.(calls := w.calls + [a.result], lookedUp := true, stage := Chain(0))), rest)
  {
    assert [a, b] + rest == [a] + ([b] + rest);
    Unfold(Solo(st, w), a, [b] + rest);
    Unfold(Solo(st, w.(calls := w.calls + [a.result], stage := Lookup)), b, rest);
  }

  // ---- The model fallback chain ----

  // A model without a usable profile of its own provider, or whose call fails, is passed over
  // without a report.
  lemma ModelPassedOver(st: Store, w: Worker, i: nat, a: Turn, b: Turn, rest: seq<Turn>)
    requires w.stage == Chain(i) && i < |w.Models()| && b.result.Fails?
    ensures var auth := Resolve(st, w.Models()[i], a.now);
            if auth.None?
            then Alone(Solo(st, w), [a] + rest) == Alone(Solo(st, w.(stage := Chain(i + 1))), rest)
            else Alone(Solo(st, w), [a, b] + rest) ==
                 Alone(Solo(st, w.(calls := w.calls + [b.result], stage := Chain(i + 1))), rest)
  {
    hide Resolve;
    var auth := Resolve(st, w.Models()[i], a.now);
    if auth.None? {
      Unfold(Solo(st, w), a, rest);
    } else {
      assert [a, b] + rest == [a] + ([b] + rest);
      Unfold(Solo(st, w), a, [b] + rest);
      Unfold(Solo(st, w.(stage := ModelCall(i, auth.value))), b, rest);
    }
  }

  // The first model that answers is credited; the pin stays where it was.
  lemma ModelAnswers(st: Store, w: Worker, i: nat, a: Turn, b: Turn, c: Turn, d: Turn, e: Turn)
    requires w.stage == Chain(i) && i < |w.Models()| && w.posted == [] && b.result == Succeeds
    requires Resolve(st, w.Models()[i], a.now).Some?
    ensures var id := Resolve(st, w.Models()[i], a.now).value.profileId;
            Ends(Alone(Solo(st, w), [a, b, c, d, e]), Succeed(st, id, c.now), ResponseFinished, w.calls + [Succeeds])
  {
    hide Resolve, Succeed, Ends;
    var auth := Resolve(st, w.Models()[i], a.now).value;
    assert [a, b, c, d, e] == [a] + ([b] + [c, d, e]);
    Unfold(Solo(st, w), a, [b] + [c, d, e]);
    Unfold(Solo(st, w.(stage := ModelCall(i, auth))), b, [c, d, e]);
    CreditsModel(st, w.(calls := w.calls + [Succeeds], stage := Crediting(auth.profileId, false)),
                 auth.profileId, c, d, e);
  }

  lemma ChainExhausted(st: Store, w: Worker, a: Turn, b: Turn, c: Turn)
    requires w.stage == Chain(|w.Models()|) && w.posted == []
    ensures Ends(Alone(Solo(st, w), [a, b, c]), st, ResponseError, w.calls)
  {
    hide Ends;
    assert [a] + [b, c] == [a, b, c];
    Unfold(Solo(st, w), a, [b, c]);
    Closes(st, w.(stage := Posting(ResponseError)), ResponseError, b, c);
  }

  // ---- The chain that is looked up ----

  // An entry of a configured chain as the lookup reads it: strings, or nothing, under both names.
  predicate Readable(entry: Json) {
    && entry.Obj?
    && ("provider" in entry.fields ==> entry.fields["provider"].Str?)
    && ("model" in entry.fields ==> entry.fields["model"].Str?)
  }

  // A configured chain: the lookup throws if and only if an entry is not readable, and otherwise
  // gives the providers in order, an empty one where none is named.
  lemma ConfiguredChain(config: Json, model: string)
    requires config.Contains("model_fallback") && config.fields["model_fallback"].Contains(model)
    ensures var entries := config.fields["model_fallback"].fields[model].Elements();
            var chain := ModelChain(config, model);
            && (chain.None? <==> exists i :: 0 <= i < |entries| && !Readable(entries[i]))
            && (chain.Some? ==> |chain.value| == |entries| && forall i :: 0 <= i < |entries| ==>
                  chain.value[i] == if "provider" in entries[i].fields then entries[i].fields["provider"].s else "")
  {
  }

  // The built-in chains end with the local models, never fall back to Gemini, and never to the
  // provider that the model's own name gives away.
  lemma BuiltInChain(config: Json, model: string)
    requires !(config.Contains("model_fallback") && config.fields["model_fallback"].Contains(model))
    ensures var chain := ModelChain(config, model);
            var claude := PartOf("claude", model) || PartOf("anthropic", model);
            var openai := PartOf("gpt", model) || PartOf("openai", model);
            && chain.Some? && |chain.value| >= 2 && chain.value[|chain.value| - 1] == "ollama"
            && "gemini" !in chain.value
            && chain.value[..|chain.value| - 1] ==
               if claude then ["openai"] else if openai then ["claude"] else ["claude", "openai"]
  {
    FindsParts(model, "claude");
    FindsParts(model, "anthropic");
    FindsParts(model, "gpt");
    FindsParts(model, "openai");
    hide PartOf, Find;
  }
}
