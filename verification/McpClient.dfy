/**
The CLI's MCP bridge: the three-message script it feeds a server process, the scan of
the reply stream for its last frame, and both ends composed.
*/
module McpClient {
  import opened Text
  import opened JsonValue
  import opened McpFraming
  import opened McpHost

  function InitRequest(): Json {
    Obj(map[
      "jsonrpc" := Str("2.0"), "id" := Int(0), "method" := Str("initialize"),
      "params" := Obj(map[
        "protocolVersion" := Str("2024-11-05"), "capabilities" := Null,
        "clientInfo" := Obj(map["name" := Str("euxis"), "version" := Str("0.1.3")])])])
  }

  function InitializedNotice(): Json {
    Obj(map["jsonrpc" := Str("2.0"), "method" := Str("notifications/initialized")])
  }

  function CallRequest(tool: string, arguments: Json): Json {
    Obj(map[
      "jsonrpc" := Str("2.0"), "id" := Int(1), "method" := Str("tools/call"),
      "params" := Obj(map["name" := Str(tool), "arguments" := arguments])])
  }

  function Requests(tool: string, arguments: Json): seq<Json> {
    [InitRequest(), InitializedNotice(), CallRequest(tool, arguments)]
  }

  // Everything written to the server's standard input.
  function Script(codec: Codec, tool: string, arguments: Json): string {
    Frames(Dumps(codec, Requests(tool, arguments)))
  }

  function Substr(s: string, from: nat, n: nat): string
    requires from <= |s|
  {
    if from + n <= |s| then s[from..from + n] else s[from..]
  }

  // One turn of the reply scan from a position. `at` is the position the loop continues
  // from: a size_t sum, so it is reduced modulo 2^64.
  datatype Step = Stop | Next(at: nat, body: string, bodyStart: nat, length: nat)

  function ScanStep(output: string, pos: nat): (s: Step)
    ensures s.Next? ==> pos < s.bodyStart <= |output| && s.at <= |output|
    ensures s.Next? ==> s.at == (s.bodyStart + s.length) % U64
  {
    if pos >= |output| then Stop
    else match Find(output, BLANK_LINE, pos)
      case None => Stop
      case Some(headerEnd) =>
        match Find(output, LENGTH_HEADER, pos)
        case None => Stop
        case Some(labelAt) =>
          if labelAt > headerEnd then Stop
          else match Stoull(output[labelAt + |LENGTH_HEADER|..])
            case None => Stop
            case Some(n) =>
              var bodyStart := headerEnd + |BLANK_LINE|;
              var at := (bodyStart + n) % U64;
              if at > |output| then Stop
              else Next(at, Substr(output, bodyStart, n), bodyStart, n)
  }

  // The scan's result: the last body that parsed, or a loop that never ends.
  datatype Scan = Scanned(last: Json) | Endless

  function KeepLast(codec: Codec, last: Json, body: string): Json {
    var parsed := codec.parse(body);
    if parsed.Some? then parsed.value else last
  }

  // The loop from a position, given up after a number of turns.
  function ScanFrom(codec: Codec, output: string, pos: nat, last: Json, turns: nat): Scan
    decreases turns
  {
    if turns == 0 then Endless
    else match ScanStep(output, pos)
      case Stop => Scanned(last)
      case Next(at, body, _, _) => ScanFrom(codec, output, at, KeepLast(codec, last, body), turns - 1)
  }

  // One turn more than there are positions: a loop that goes on so long never ends.
  function ScanAll(codec: Codec, output: string): Scan {
    ScanFrom(codec, output, 0, Null, |output| + 2)
  }

  // The body of the loop, up to where it continues or breaks.
  method NextReply(output: string, pos: nat) returns (step: Step)
    ensures step == ScanStep(output, pos)
  {
    hide Find, Stoull;
    if pos >= |output| {
      return Stop;
    }
    var headerEnd := Find(output, BLANK_LINE, pos);
    if headerEnd.None? {
      return Stop;
    }
    var labelAt := Find(output, LENGTH_HEADER, pos);
    if labelAt.None? || labelAt.value > headerEnd.value {
      return Stop;
    }
    var length := Stoull(output[labelAt.value + |LENGTH_HEADER|..]);
    if length.None? {
      return Stop;
    }
    var bodyStart := headerEnd.value + |BLANK_LINE|;
    var at := (bodyStart + length.value) % U64;
    if at > |output| {
      return Stop;
    }
    step := Next(at, Substr(output, bodyStart, length.value), bodyStart, length.value);
  }

  method ScanReplies(codec: Codec, output: string) returns (r: Scan)
    ensures r == ScanAll(codec, output)
  {
    hide ScanStep;
    var last, pos: nat, turns: nat := Null, 0, |output| + 2;
    while turns > 0
      invariant ScanFrom(codec, output, pos, last, turns) == ScanAll(codec, output)
    {
      var step := NextReply(output, pos);
      if step.Stop? {
        return Scanned(last);
      }
      last := KeepLast(codec, last, step.body);
      pos, turns := step.at, turns - 1;
    }
    r := Endless;
  }

  // ---- When the scan loop ends ----

  // Where a loop over positions stands after k turns; None once it has stopped.
  function Iterate(next: nat -> Option<nat>, pos: nat, k: nat): Option<nat>
    decreases k
  {
    if k == 0 then Some(pos)
    else
      var p := next(pos);
      if p.None? then None else Iterate(next, p.value, k - 1)
  }

  // The source's loop, wrap-around included.
  function ScanNext(output: string): nat -> Option<nat> {
    (pos: nat) => match ScanStep(output, pos) case Stop => None case Next(at, _, _, _) => Some(at)
  }

  lemma {:induction false} IterateAdds(next: nat -> Option<nat>, pos: nat, i: nat, j: nat)
    ensures Iterate(next, pos, i + j) ==
            if Iterate(next, pos, i).None? then None else Iterate(next, Iterate(next, pos, i).value, j)
    decreases i
  {
    if i > 0 && next(pos).Some? {
      IterateAdds(next, next(pos).value, i - 1, j);
    }
  }

  lemma StoppedStays(next: nat -> Option<nat>, pos: nat, i: nat, k: nat)
    requires i <= k && Iterate(next, pos, i).None?
    ensures Iterate(next, pos, k).None?
  {
    IterateAdds(next, pos, i, k - i);
  }

  ghost predicate Bounded(next: nat -> Option<nat>, bound: nat) {
    forall p: nat :: next(p).Some? ==> next(p).value <= bound
  }

  // A loop that is at one place after i and after j turns does not stop a turn after either.
  lemma RepeatStopsSooner(next: nat -> Option<nat>, pos: nat, i: nat, j: nat, k: nat)
    requires i < j <= k && Iterate(next, pos, i).Some? && Iterate(next, pos, i) == Iterate(next, pos, j)
    ensures Iterate(next, pos, k) == Iterate(next, pos, i + (k - j))
  {
    IterateAdds(next, pos, j, k - j);
    IterateAdds(next, pos, i, k - j);
  }

  function Places(next: nat -> Option<nat>, pos: nat, k: nat): (r: seq<nat>)
    requires forall i: nat :: i < k ==> Iterate(next, pos, i).Some?
    ensures |r| == k && forall i: nat :: i < k ==> r[i] == Iterate(next, pos, i).value
  {
    seq(k, i requires 0 <= i < k => Iterate(next, pos, i).value)
  }

  // Distinct numbers up to a bound are no more than there are.
  lemma {:induction false} DistinctFit(s: seq<nat>, bound: nat)
    requires forall i, j :: 0 <= i < j < |s| ==> s[i] != s[j]
    requires forall i :: 0 <= i < |s| ==> s[i] < bound
    ensures |s| <= bound
    decreases bound
  {
    if s != [] {
      assert s[0] < bound;
      if i: nat :| i < |s| && s[i] == bound - 1 {
        DistinctFit(s[..i] + s[i + 1..], bound - 1);
      } else {
        DistinctFit(s, bound - 1);
      }
    }
  }

  // A loop over the positions up to a bound either stops within bound + 2 turns or never.
  lemma {:induction false} StopsSoonOrNever(next: nat -> Option<nat>, pos: nat, bound: nat, k: nat)
    requires Bounded(next, bound) && pos <= bound && Iterate(next, pos, k).None?
    ensures Iterate(next, pos, bound + 2).None?
    decreases k
  {
    hide Iterate;
    if i: nat, j: nat :| i < j < k && Iterate(next, pos, i).Some? && Iterate(next, pos, i) == Iterate(next, pos, j) {
      RepeatStopsSooner(next, pos, i, j, k);
      StopsSoonOrNever(next, pos, bound, i + (k - j));
    } else if i: nat :| i < k && Iterate(next, pos, i).None? {
      StopsSoonOrNever(next, pos, bound, i);
    } else {
      var places := Places(next, pos, k);
      forall i: nat | i < k ensures places[i] < bound + 1 {
        StaysBounded(next, pos, bound, i);
      }
      DistinctFit(places, bound + 1);
      StoppedStays(next, pos, k, bound + 2);
    }
  }

  lemma {:induction false} StaysBounded(next: nat -> Option<nat>, pos: nat, bound: nat, k: nat)
    requires Bounded(next, bound) && pos <= bound
    ensures Iterate(next, pos, k).Some? ==> Iterate(next, pos, k).value <= bound
    decreases k
  {
    if k > 0 && next(pos).Some? {
      StaysBounded(next, next(pos).value, bound, k - 1);
    }
  }

  lemma {:induction false} ScanGivesUp(codec: Codec, output: string, pos: nat, last: Json, turns: nat)
    ensures ScanFrom(codec, output, pos, last, turns).Endless? <==> Iterate(ScanNext(output), pos, turns).Some?
    decreases turns
  {
    hide ScanStep;
    if turns > 0 {
      var s := ScanStep(output, pos);
      if s.Next? {
        ScanGivesUp(codec, output, s.at, KeepLast(codec, last, s.body), turns - 1);
      }
    }
  }

  lemma {:induction false} MoreTurnsAgree(codec: Codec, output: string, pos: nat, last: Json, t: nat, u: nat)
    requires t <= u && ScanFrom(codec, output, pos, last, t).Scanned?
    ensures ScanFrom(codec, output, pos, last, u) == ScanFrom(codec, output, pos, last, t)
    decreases t
  {
    hide ScanStep;
    var s := ScanStep(output, pos);
    if s.Next? {
      MoreTurnsAgree(codec, output, s.at, KeepLast(codec, last, s.body), t - 1, u - 1);
    }
  }

  // The scan is decided for every output, wrapped sums included: it is endless exactly when
  // the source's loop goes on after any number of turns, and otherwise has its result.
  lemma ScanIsDecided(codec: Codec, output: string)
    ensures ScanAll(codec, output).Endless? <==> forall k: nat :: Iterate(ScanNext(output), 0, k).Some?
    ensures forall t: nat :: ScanFrom(codec, output, 0, Null, t).Scanned? ==>
              ScanFrom(codec, output, 0, Null, t) == ScanAll(codec, output)
  {
    hide ScanStep, Iterate, ScanFrom;
    var next, n := ScanNext(output), |output| + 2;
    ScanGivesUp(codec, output, 0, Null, n);
    forall k: nat ensures Iterate(next, 0, k).None? ==> Iterate(next, 0, n).None? {
      if Iterate(next, 0, k).None? {
        StopsSoonOrNever(next, 0, |output|, k);
      }
    }
    forall t: nat | ScanFrom(codec, output, 0, Null, t).Scanned?
      ensures ScanFrom(codec, output, 0, Null, t) == ScanAll(codec, output)
    {
      ScanGivesUp(codec, output, 0, Null, t);
      MoreTurnsAgree(codec, output, 0, Null, t, t + n);
      MoreTurnsAgree(codec, output, 0, Null, n, t + n);
    }
  }

  // No length written after a header label, added to an offset into the output, reaches 2^64.
  ghost predicate SaneLengths(output: string) {
    |output| < U64 &&
    forall i: nat :: Occurs(output, LENGTH_HEADER, i) && Stoull(output[i + |LENGTH_HEADER|..]).Some? ==>
      Stoull(output[i + |LENGTH_HEADER|..]).value + |output| < U64
  }

  // A turn keeps clear of the header it has read exactly when its sum does not wrap.
  lemma StepWraps(output: string, pos: nat)
    requires |output| < U64 && ScanStep(output, pos).Next?
    ensures var s := ScanStep(output, pos);
            s.length < U64 && (s.at >= s.bodyStart <==> s.bodyStart + s.length < U64)
  {
    var s := ScanStep(output, pos);
    if s.bodyStart + s.length >= U64 {
      assert s.at == s.bodyStart + s.length - U64;
    }
  }

  lemma SaneStepAdvances(output: string, pos: nat)
    requires SaneLengths(output) && ScanStep(output, pos).Next?
    ensures pos < ScanStep(output, pos).bodyStart <= ScanStep(output, pos).at <= |output|
  {
    StepWraps(output, pos);
  }

  lemma {:induction false} AdvancingLoopStops(next: nat -> Option<nat>, pos: nat, bound: nat, k: nat)
    requires forall p: nat :: next(p).Some? ==> p < next(p).value <= bound
    ensures Iterate(next, pos, k).Some? ==> k == 0 || pos + k <= Iterate(next, pos, k).value <= bound
    decreases k
  {
    if k > 0 && next(pos).Some? {
      AdvancingLoopStops(next, next(pos).value, bound, k - 1);
    }
  }

  // With sane lengths every turn advances, so the loop stops within |output| + 1 turns.
  lemma ScanTerminates(output: string)
    requires SaneLengths(output)
    ensures Iterate(ScanNext(output), 0, |output| + 1) == None
  {
    hide ScanStep;
    var next := ScanNext(output);
    forall p: nat | next(p).Some?
      ensures p < next(p).value <= |output|
    {
      SaneStepAdvances(output, p);
    }
    AdvancingLoopStops(next, 0, |output|, |output| + 1);
  }

  lemma SaneScanFinishes(codec: Codec, output: string)
    requires SaneLengths(output)
    ensures ScanAll(codec, output).Scanned?
  {
    hide *;
    ScanTerminates(output);
    ScanIsDecided(codec, output);
  }

  // Twenty-three bytes on which the source's loop never leaves position 0: stoull reads
  // the length -23 as 2^64 - 23, and the position sum is 2^64.
  const LOOPING_OUTPUT: string := "Content-Length: -23\r\n\r\n"

  lemma LoopingStep()
    ensures ScanStep(LOOPING_OUTPUT, 0) == Next(0, "", 23, U64 - 23)
  {
    hide Find, Stoull, Head, LOOPING_OUTPUT, ScanStep, LENGTH_HEADER, BLANK_LINE;
    LoopingParts();
    BlankLineAt("", "-23", "");
    LabelAt("", "-23", "");
    StoullMinus23();
    StepFound(LOOPING_OUTPUT, 0, 19, 0, U64 - 23);
    assert LOOPING_OUTPUT[23..] == "";
  }

  // What a turn does with what its searches found.
  lemma StepFound(output: string, pos: nat, headerEnd: nat, labelAt: nat, n: nat)
    requires pos < |output| && Find(output, BLANK_LINE, pos) == Some(headerEnd)
    requires Find(output, LENGTH_HEADER, pos) == Some(labelAt) && labelAt <= headerEnd
    requires labelAt + |LENGTH_HEADER| <= |output|
    requires Stoull(output[labelAt + |LENGTH_HEADER|..]) == Some(n) && |BLANK_LINE| == 4
    ensures headerEnd + 4 <= |output|
    ensures var at := (headerEnd + 4 + n) % U64;
            ScanStep(output, pos) ==
            if at > |output| then Stop else Next(at, Substr(output, headerEnd + 4, n), headerEnd + 4, n)
  {
    hide Find, Stoull, LENGTH_HEADER, BLANK_LINE, Substr;
  }

  lemma LoopingParts()
    ensures LOOPING_OUTPUT == Head("", "-23") + "" && |LOOPING_OUTPUT| == |Head("", "-23")| == 23
    ensures |LENGTH_HEADER| == 16 && |BLANK_LINE| == 4
    ensures LOOPING_OUTPUT[|LENGTH_HEADER|..] == "-23" + BLANK_LINE
  {
  }

  lemma StoullMinus23()
    ensures Stoull("-23" + BLANK_LINE) == Some(U64 - 23)
  {
    var t := "-23" + BLANK_LINE;
    assert SkipSpace(t) == t && t[1..] == "23" + BLANK_LINE;
    DigitRunExact("23", BLANK_LINE);
    assert t[1..][..2] == "23" && "23"[..1] == "2" && "2"[..0] == "";
    assert DigitsValue("2") == 2 && DigitsValue("23") == 23;
  }

  lemma {:induction false} LoopStays(next: nat -> Option<nat>, k: nat)
    requires next(0) == Some(0)
    ensures Iterate(next, 0, k) == Some(0)
  {
    if k > 0 {
      LoopStays(next, k - 1);
    }
  }

  // So without sane lengths the loop need not end: after any number of turns it is at 0.
  lemma ScanMayLoopForever(k: nat)
    ensures Iterate(ScanNext(LOOPING_OUTPUT), 0, k) == Some(0)
  {
    LoopingStep();
    LoopStays(ScanNext(LOOPING_OUTPUT), k);
  }

  // ---- The scan inverts framing ----

  function Head(pre: string, length: string): string {
    pre + LENGTH_HEADER + length + BLANK_LINE
  }

  lemma BlankLineAt(pre: string, length: string, rest: string)
    requires forall i :: 0 <= i < |length| ==> length[i] != '\r'
    ensures Find(Head(pre, length) + rest, BLANK_LINE, |pre|) == Some(|Head(pre, length)| - 4)
  {
    var output := Head(pre, length) + rest;
    var end := |Head(pre, length)| - 4;
    var line := LENGTH_HEADER + length;
    assert forall j :: 0 <= j < |line| ==> line[j] != '\r';
    assert output[|pre|..end] == line;
    assert forall j :: |pre| <= j < end ==> output[j] == line[j - |pre|];
    var window := output[end..end + 4];
    assert window == BLANK_LINE && forall k :: 0 <= k < 4 ==> window[k] == output[end + k];
    assert Occurs(output, BLANK_LINE, end);
    FindFirst(output, BLANK_LINE, |pre|, end);
  }

  lemma LabelAt(pre: string, length: string, rest: string)
    ensures Find(Head(pre, length) + rest, LENGTH_HEADER, |pre|) == Some(|pre|)
  {
    var output := Head(pre, length) + rest;
    assert output[|pre|..|pre| + |LENGTH_HEADER|] == LENGTH_HEADER;
    assert Occurs(output, LENGTH_HEADER, |pre|);
  }

  lemma LengthAt(pre: string, n: nat, rest: string)
    requires n < U64
    ensures |pre| + |LENGTH_HEADER| <= |Head(pre, Decimal(n)) + rest|
    ensures Stoull((Head(pre, Decimal(n)) + rest)[|pre| + |LENGTH_HEADER|..]) == Some(n)
  {
    assert (Head(pre, Decimal(n)) + rest)[|pre| + |LENGTH_HEADER|..] == Decimal(n) + (BLANK_LINE + rest);
    StoullDecimal(n, BLANK_LINE + rest);
  }

  lemma StepOverFrame(pre: string, body: string, rest: string)
    requires |pre + Frame(body) + rest| < U64
    ensures ScanStep(pre + Frame(body) + rest, |pre|) ==
            Next(|pre + Frame(body)|, body, |pre + Frame(body)| - |body|, |body|)
  {
    hide Find, Stoull, Decimal, LENGTH_HEADER, BLANK_LINE, Head, ScanStep;
    var ds := Decimal(|body|);
    var head := Head(pre, ds);
    var output := head + (body + rest);
    HeadOfFrame(pre, body, rest);
    BlankLineAt(pre, ds, body + rest);
    LabelAt(pre, ds, body + rest);
    LengthAt(pre, |body|, body + rest);
    StepFound(output, |pre|, |head| - 4, |pre|, |body|);
    assert output[|head|..|head| + |body|] == body;
  }

  lemma HeadOfFrame(pre: string, body: string, rest: string)
    ensures var head := Head(pre, Decimal(|body|));
            && pre + Frame(body) + rest == head + (body + rest) && |pre + Frame(body)| == |head| + |body|
            && |BLANK_LINE| == 4 && |pre| + 4 <= |head|
  {
    hide Decimal;
  }

  lemma StepAtEnd(pre: string)
    ensures ScanStep(pre + Frames([]), |pre|) == Stop
  {
  }

  function LastParsed(codec: Codec, bodies: seq<string>, last: Json): Json {
    if bodies == [] then last
    else LastParsed(codec, bodies[1..], KeepLast(codec, last, bodies[0]))
  }

  // On a stream of whole frames the scan returns the last body that parses.
  lemma {:induction false} ScanOfFrames(codec: Codec, pre: string, bodies: seq<string>, last: Json)
    requires |pre + Frames(bodies)| < U64
    ensures ScanFrom(codec, pre + Frames(bodies), |pre|, last, |bodies| + 1) == Scanned(LastParsed(codec, bodies, last))
    decreases |bodies|
  {
    if bodies == [] {
      StepAtEnd(pre);
    } else {
      hide ScanStep, Frame;
      var first := Frame(bodies[0]);
      var rest := Frames(bodies[1..]);
      assert pre + Frames(bodies) == pre + first + rest;
      StepOverFrame(pre, bodies[0], rest);
      ScanOfFrames(codec, pre + first, bodies[1..], KeepLast(codec, last, bodies[0]));
    }
  }

  // ---- The response built from the last reply ----

  datatype Response =
    | Response(success: bool, output: string, error: string, exitCode: int)
    | Thrown

  // The texts of a content array; None where reading a text member throws.
  function ContentText(items: seq<Json>): Option<string> {
    if items == [] then Some("")
    else
      var rest := ContentText(items[1..]);
      if !items[0].Contains("text") then rest
      else if !items[0].fields["text"].Str? || rest.None? then None
      else Some(items[0].fields["text"].s + rest.value)
  }

  function ResponseFrom(codec: Codec, output: string, last: Json): Response {
    if last.Null? then Response(false, output, "failed to parse MCP response", 1)
    else if last.Contains("error") then
      Response(false, "", "MCP error: " + codec.dump(last.fields["error"]), 1)
    else if last.Contains("result") then
      var r := last.fields["result"];
      if r.Contains("content") && r.fields["content"].Arr? then
        match ContentText(r.fields["content"].items)
        case None => Thrown
        case Some(text) => Response(true, text, "", 0)
      else Response(true, codec.dump(r), "", 0)
    else Response(true, codec.dump(last), "", 0)
  }

  // The loop over a content array.
  method JoinContent(items: seq<Json>) returns (text: Option<string>)
    ensures text == ContentText(items)
  {
    text := Some("");
    for n := 0 to |items|
      invariant text.Some? && ContentText(items[..n]) == text
    {
      assert items[..n + 1] == items[..n] + [items[n]];
      ContentAppends(items[..n], [items[n]]);
      ContentOfOne(items[n]);
      assert text.value + "" == text.value;
      if items[n].Contains("text") {
        if !items[n].fields["text"].Str? {
          ContentAppends(items[..n + 1], items[n + 1..]);
          assert items == items[..n + 1] + items[n + 1..];
          return None;
        }
        text := Some(text.value + items[n].fields["text"].s);
      }
    }
    assert items[..|items|] == items;
  }

  lemma ContentOfOne(item: Json)
    ensures ContentText([item]) ==
            if !item.Contains("text") then Some("")
            else if item.fields["text"].Str? then Some(item.fields["text"].s) else None
  {
    assert [item][1..] == [];
    assert item.Contains("text") && item.fields["text"].Str? ==> item.fields["text"].s + "" == item.fields["text"].s;
  }

  // Contents one after the other are read one after the other.
  lemma {:induction false} ContentAppends(a: seq<Json>, b: seq<Json>)
    ensures ContentText(a + b) == var x, y := ContentText(a), ContentText(b);
            if x.None? || y.None? then None else Some(x.value + y.value)
    decreases |a|
  {
    if a == [] {
      assert a + b == b;
      var y := ContentText(b);
      assert y.Some? ==> "" + y.value == y.value;
    } else {
      assert (a + b)[1..] == a[1..] + b;
      ContentAppends(a[1..], b);
      var x, y := ContentText(a[1..]), ContentText(b);
      if a[0].Contains("text") && a[0].fields["text"].Str? && x.Some? && y.Some? {
        Assoc(a[0].fields["text"].s, x.value, y.value);
      }
    }
  }

  // execute() from the last reply on.
  method ReadResponse(codec: Codec, output: string, last: Json) returns (r: Response)
    ensures r == ResponseFrom(codec, output, last)
  {
    if last.Null? {
      return Response(false, output, "failed to parse MCP response", 1);
    }
    if last.Contains("error") {
      return Response(false, "", "MCP error: " + codec.dump(last.fields["error"]), 1);
    }
    if last.Contains("result") {
      var result := last.fields["result"];
      if !result.Contains("content") || !result.fields["content"].Arr? {
        return Response(true, codec.dump(result), "", 0);
      }
      var text := JoinContent(result.fields["content"].items);
      return if text.None? then Thrown else Response(true, text.value, "", 0);
    }
    r := Response(true, codec.dump(last), "", 0);
  }

  // The response to an output whose scan ends.
  function Answered(codec: Codec, output: string): Response {
    var scan := ScanAll(codec, output);
    if scan.Endless? then Thrown else ResponseFrom(codec, output, scan.last)
  }

  // The child process: exit status and captured output for a given standard input.
  datatype ProcessResult = ProcessResult(exitCode: int, stdout: string, stderr: string)

  datatype ServerConfig = ServerConfig(name: string, command: string)

  class McpProviderBridge {
    const codec: Codec
    var servers: map<string, ServerConfig>

    constructor (codec: Codec)
      ensures this.codec == codec && servers == map[]
    {
      this.codec, servers := codec, map[];
    }

    // execute(); endless where the scan of the replies is.
    method Execute(server: string, tool: string, arguments: Json, spawn: string -> ProcessResult)
      returns (r: Response, endless: bool)
      ensures server !in servers ==>
                !endless && r == Response(false, "", "unknown MCP server: " + server, 1)
      ensures server in servers && servers[server].command == "" ==>
                !endless && r == Response(false, "", "MCP server has no command: " + server, 1)
      ensures server in servers && servers[server].command != "" ==>
                var p := spawn(Script(codec, tool, arguments));
                if p.exitCode != 0 && p.stdout == "" then
                  !endless && r == Response(false, "", "MCP server failed: " + p.stderr, p.exitCode)
                else
                  endless == ScanAll(codec, p.stdout).Endless? && (!endless ==> r == Answered(codec, p.stdout))
    {
      if server !in servers {
        return Response(false, "", "unknown MCP server: " + server, 1), false;
      }
      if servers[server].command == "" {
        return Response(false, "", "MCP server has no command: " + server, 1), false;
      }
      var call := Frame(codec.dump(CallRequest(tool, arguments)));
      var init := Frame(codec.dump(InitRequest()));
      var ack := Frame(codec.dump(InitializedNotice()));
      ScriptIsThreeFrames(codec, tool, arguments);
      var p := spawn(init + ack + call);
      if p.exitCode != 0 && p.stdout == "" {
        return Response(false, "", "MCP server failed: " + p.stderr, p.exitCode), false;
      }
      var scan := ScanReplies(codec, p.stdout);
      if scan.Endless? {
        return Thrown, true;
      }
      endless := false;
      r := ReadResponse(codec, p.stdout, scan.last);
    }
  }

  lemma ScriptIsThreeFrames(codec: Codec, tool: string, arguments: Json)
    ensures Script(codec, tool, arguments) ==
            Frame(codec.dump(InitRequest())) + Frame(codec.dump(InitializedNotice())) +
            Frame(codec.dump(CallRequest(tool, arguments)))
  {
    ThreeFrames(codec, InitRequest(), InitializedNotice(), CallRequest(tool, arguments));
  }

  lemma ThreeFrames(codec: Codec, a: Json, b: Json, c: Json)
    ensures Frames(Dumps(codec, [a, b, c])) ==
            Frame(codec.dump(a)) + Frame(codec.dump(b)) + Frame(codec.dump(c))
  {
    hide Frame;
    FramesOfCons(codec, a, [b, c]);
    FramesOfCons(codec, b, [c]);
    FramesOfCons(codec, c, []);
    assert [a] + [b, c] == [a, b, c] && [b] + [c] == [b, c] && [c] + [] == [c];
    var x, y, z := Frame(codec.dump(a)), Frame(codec.dump(b)), Frame(codec.dump(c));
    assert x + (y + (z + "")) == x + y + z;
  }

  // ---- What any server's replies come to ----

  lemma {:induction false} LastParsedAppends(codec: Codec, bodies: seq<string>, body: string, last: Json)
    ensures LastParsed(codec, bodies + [body], last) == KeepLast(codec, LastParsed(codec, bodies, last), body)
    decreases |bodies|
  {
    if bodies == [] {
      assert bodies + [body] == [body] && [body][1..] == [];
    } else {
      assert (bodies + [body])[1..] == bodies[1..] + [body];
      LastParsedAppends(codec, bodies[1..], body, KeepLast(codec, last, bodies[0]));
    }
  }

  // Whatever was framed before it, the last framed message is the one that counts.
  lemma LastMessageCounts(codec: Codec, bodies: seq<string>, reply: Json)
    requires Faithful(codec) && |Frames(bodies + [codec.dump(reply)])| < U64
    ensures var output := Frames(bodies + [codec.dump(reply)]);
            Answered(codec, output) == ResponseFrom(codec, output, reply)
  {
    hide ScanFrom, ResponseFrom;
    var all := bodies + [codec.dump(reply)];
    assert "" + Frames(all) == Frames(all);
    ScanOfFrames(codec, "", all, Null);
    ScanIsDecided(codec, Frames(all));
    LastParsedAppends(codec, bodies, codec.dump(reply), Null);
  }

  // A content item that says something, among any other members, or one that does not.
  datatype Piece = Said(text: string, rest: map<string, Json>) | Silent(item: Json)

  predicate Quiet(p: Piece) {
    p.Silent? ==> !p.item.Contains("text")
  }

  function PieceJson(p: Piece): Json {
    match p
    case Said(text, rest) => Obj(rest["text" := Str(text)])
    case Silent(item) => item
  }

  function Pieces(ps: seq<Piece>): seq<Json> {
    seq(|ps|, i requires 0 <= i < |ps| => PieceJson(ps[i]))
  }

  // Everything said, first things first.
  function Spoken(ps: seq<Piece>): string {
    if ps == [] then ""
    else Spoken(ps[..|ps| - 1]) + (if ps[|ps| - 1].Said? then ps[|ps| - 1].text else "")
  }

  lemma {:induction false} ContentOfPieces(ps: seq<Piece>)
    requires forall i :: 0 <= i < |ps| ==> Quiet(ps[i])
    ensures ContentText(Pieces(ps)) == Some(Spoken(ps))
    decreases |ps|
  {
    if ps != [] {
      var init, last := ps[..|ps| - 1], ps[|ps| - 1];
      ContentOfPieces(init);
      assert Pieces(ps) == Pieces(init) + [PieceJson(last)];
      ContentAppends(Pieces(init), [PieceJson(last)]);
      assert Quiet(ps[|ps| - 1]);
      ContentOfOne(PieceJson(last));
    }
  }

  // Any texts a server sends as one result come back joined in their order; items without text
  // are passed over.
  lemma TextsArriveInOrder(codec: Codec, bodies: seq<string>, id: Json, ps: seq<Piece>)
    requires Faithful(codec) && forall i :: 0 <= i < |ps| ==> Quiet(ps[i])
    requires var result := Obj(map["content" := Arr(Pieces(ps))]);
             |Frames(bodies + [codec.dump(MakeResult(id, result))])| < U64
    ensures var result := Obj(map["content" := Arr(Pieces(ps))]);
            Answered(codec, Frames(bodies + [codec.dump(MakeResult(id, result))])) ==
            Response(true, Spoken(ps), "", 0)
  {
    hide Answered, ContentText, Frames, Pieces;
    LastMessageCounts(codec, bodies, MakeResult(id, Obj(map["content" := Arr(Pieces(ps))])));
    ContentOfPieces(ps);
  }

  // A text that is no string ends the call with an exception.
  lemma OddTextThrows(codec: Codec, bodies: seq<string>, id: Json, before: seq<Json>, item: Json, after: seq<Json>)
    requires Faithful(codec) && item.Contains("text") && !item.fields["text"].Str?
    requires var result := Obj(map["content" := Arr(before + [item] + after)]);
             |Frames(bodies + [codec.dump(MakeResult(id, result))])| < U64
    ensures var result := Obj(map["content" := Arr(before + [item] + after)]);
            Answered(codec, Frames(bodies + [codec.dump(MakeResult(id, result))])) == Thrown
  {
    hide Answered, Frames;
    LastMessageCounts(codec, bodies, MakeResult(id, Obj(map["content" := Arr(before + [item] + after)])));
    ContentOfOne(item);
    ContentAppends(before, [item]);
    ContentAppends(before + [item], after);
  }

  // Every other kind of last message: an error whatever else it has, a result without a content
  // array, and a message with neither.
  lemma OtherMessages(codec: Codec, bodies: seq<string>, message: Json)
    requires Faithful(codec) && |Frames(bodies + [codec.dump(message)])| < U64
    ensures var output := Frames(bodies + [codec.dump(message)]);
            var r := Answered(codec, output);
            && (message == Null ==> r == Response(false, output, "failed to parse MCP response", 1))
            && (message.Contains("error") ==>
                  r == Response(false, "", "MCP error: " + codec.dump(message.fields["error"]), 1))
            && (!message.Contains("error") && message.Contains("result") &&
                !(message.fields["result"].Contains("content") && message.fields["result"].fields["content"].Arr?) ==>
                  r == Response(true, codec.dump(message.fields["result"]), "", 0))
            && (message != Null && !message.Contains("error") && !message.Contains("result") ==>
                  r == Response(true, codec.dump(message), "", 0))
  {
    hide Answered, Frames;
    LastMessageCounts(codec, bodies, message);
  }

  // Frames none of which parses are reported with the whole output.
  lemma {:induction false} NothingParsed(codec: Codec, bodies: seq<string>, last: Json)
    requires forall i :: 0 <= i < |bodies| ==> codec.parse(bodies[i]).None?
    ensures LastParsed(codec, bodies, last) == last
    decreases |bodies|
  {
    if bodies != [] {
      NothingParsed(codec, bodies[1..], last);
    }
  }

  lemma UnparsedOutputReported(codec: Codec, bodies: seq<string>)
    requires |Frames(bodies)| < U64 && forall i :: 0 <= i < |bodies| ==> codec.parse(bodies[i]).None?
    ensures Answered(codec, Frames(bodies)) == Response(false, Frames(bodies), "failed to parse MCP response", 1)
  {
    hide ScanFrom;
    assert "" + Frames(bodies) == Frames(bodies);
    ScanOfFrames(codec, "", bodies, Null);
    ScanIsDecided(codec, Frames(bodies));
    NothingParsed(codec, bodies, Null);
  }

  // ---- Both ends composed ----

  // What calling the tool directly would give, in the client's terms.
  function DirectCall(codec: Codec, h: Host, tool: string, arguments: Json): Response {
    if tool !in h.handlers then
      Response(false, "", "MCP error: " + codec.dump(
        Obj(map["code" := Int(-32601), "message" := Str("Unknown tool: " + tool)])), 1)
    else match h.handlers[tool](arguments)
      case Returned(v) => Response(true, codec.dump(v), "", 0)
      case Threw(what) =>
        Response(false, "", "MCP error: " + codec.dump(
          Obj(map["code" := Int(-32603), "message" := Str("Tool error: " + what)])), 1)
  }

  lemma ConverseThree(codec: Codec, h: Host, a: Json, b: Json, c: Json)
    requires Calls(a, "initialize") && Calls(b, "notifications/initialized") && Calls(c, "tools/call")
    requires ToolsCall(codec, h.(initialized := true), c).Reply?
    ensures var d := Converse(codec, h, [a, b, c]);
            && !d.crashed && |d.replies| == 3 && d.host == h.(initialized := true)
            && ToolsCall(codec, h.(initialized := true), c) == Reply(d.replies[2])
  {
    hide ToolsCall, ServerInfo, ToolsList, ResourcesList, ResourcesRead, MakeResult, MakeError;
    var h' := h.(initialized := true);
    var reply := ToolsCall(codec, h', c);
    MethodNamesDiffer();
    assert [c][1..] == [] && [b, c][1..] == [c] && [a, b, c][1..] == [b, c];
    assert After(h, a) == h' && After(h', b) == h' && After(h', c) == h' && Answer(codec, h', c) == reply;
    assert Converse(codec, h', []) == Dialogue([], h', false);
    assert Converse(codec, h', [c]) == Dialogue([reply.message] + [], h', false);
    var second := Answer(codec, h', b).message;
    assert Converse(codec, h', [b, c]) == Dialogue([second] + [reply.message], h', false);
  }

  lemma MethodNamesDiffer()
    ensures "initialize" != "notifications/initialized" && "initialize" != "tools/call"
    ensures "notifications/initialized" != "tools/call" && "tools/list" != "tools/call"
  {
    assert |"initialize"| == |"tools/call"| == 10 && "initialize"[0] == 'i' && "tools/call"[0] == 't';
    assert "tools/list"[6] == 'l' && "tools/call"[6] == 'c';
  }

  lemma ResponseOfCall(codec: Codec, h: Host, tool: string, arguments: Json, output: string)
    ensures var a := ToolsCall(codec, h, CallRequest(tool, arguments));
            a.Reply? && ResponseFrom(codec, output, a.message) == DirectCall(codec, h, tool, arguments)
  {
    var a := ToolsCall(codec, h, CallRequest(tool, arguments));
    assert ParamsOf(CallRequest(tool, arguments)) == Obj(map["name" := Str(tool), "arguments" := arguments]);
    if tool in h.handlers {
      var v := h.handlers[tool](arguments);
      if v.Returned? {
        var item := Obj(map["type" := Str("text"), "text" := Str(codec.dump(v.value))]);
        ContentOfOne(item);
      }
    }
  }

  // End to end: whatever state the host starts in, feeding it the client's script and
  // scanning its replies is exactly calling the handler.
  lemma ToolCallEndToEnd(codec: Codec, h: Host, tool: string, arguments: Json)
    requires Faithful(codec)
    requires |Script(codec, tool, arguments)| < U64
    requires |Serve(codec, h, Open(Script(codec, tool, arguments))).out| < U64
    ensures var run := Serve(codec, h, Open(Script(codec, tool, arguments)));
            && !run.crashed && ScanAll(codec, run.out).Scanned?
            && Answered(codec, run.out) == DirectCall(codec, h, tool, arguments)
            && Responds(ScanAll(codec, run.out).last, CallRequest(tool, arguments))
  {
    hide Serve, ScanAll, Converse, ToolsCall, Frames, ResponseFrom, Responds, InitRequest, InitializedNotice;
    hide CallRequest, DirectCall, U64;
    var reqs := Requests(tool, arguments);
    var ready := h.(initialized := true);
    var run := Serve(codec, h, Open(Script(codec, tool, arguments)));
    BodiesFit(codec, reqs);
    ServerRefinesDispatcher(codec, h, reqs);
    ResponseOfCall(codec, ready, tool, arguments, run.out);
    ScriptCalls(tool, arguments);
    ConverseThree(codec, h, InitRequest(), InitializedNotice(), CallRequest(tool, arguments));
    SameTools(codec, h, tool, arguments);
    ScanOfThree(codec, Converse(codec, h, reqs).replies);
    RepliesMatchRequests(codec, h, reqs);
  }

  lemma ScriptCalls(tool: string, arguments: Json)
    ensures Calls(InitRequest(), "initialize") && Calls(InitializedNotice(), "notifications/initialized")
    ensures Calls(CallRequest(tool, arguments), "tools/call")
  {
  }

  lemma SameTools(codec: Codec, h: Host, tool: string, arguments: Json)
    ensures DirectCall(codec, h.(initialized := true), tool, arguments) == DirectCall(codec, h, tool, arguments)
  {
  }

  lemma ScanOfThree(codec: Codec, replies: seq<Json>)
    requires Faithful(codec) && |replies| == 3 && |Frames(Dumps(codec, replies))| < U64
    ensures ScanAll(codec, Frames(Dumps(codec, replies))) == Scanned(replies[2])
  {
    hide ScanFrom, Frames;
    var bodies := Dumps(codec, replies);
    assert "" + Frames(bodies) == Frames(bodies);
    ScanOfFrames(codec, "", bodies, Null);
    ScanIsDecided(codec, Frames(bodies));
    LastOfThree(codec, bodies, replies[2]);
  }

  // A response to the call is no response to the other messages, and the client asks for the
  // protocol version that the gateway announces.
  lemma CallStandsOut(tool: string, arguments: Json, r: Json)
    requires Responds(r, CallRequest(tool, arguments))
    ensures !Responds(r, InitRequest()) && !Responds(r, InitializedNotice())
    ensures var params := InitRequest().fields["params"];
            params.Contains("protocolVersion") && ServerInfo().Contains("protocolVersion") &&
            params.fields["protocolVersion"] == ServerInfo().fields["protocolVersion"]
  {
  }

  lemma {:induction false} BodiesFit(codec: Codec, messages: seq<Json>)
    requires |Frames(Dumps(codec, messages))| < U64
    ensures forall i :: 0 <= i < |messages| ==> |codec.dump(messages[i])| < U64
    decreases |messages|
  {
    if messages != [] {
      assert Dumps(codec, messages)[1..] == Dumps(codec, messages[1..]);
      BodiesFit(codec, messages[1..]);
      assert forall i :: 0 < i < |messages| ==> messages[i] == messages[1..][i - 1];
    }
  }

  lemma LastOfThree(codec: Codec, bodies: seq<string>, last: Json)
    requires |bodies| == 3 && codec.parse(bodies[2]) == Some(last)
    ensures LastParsed(codec, bodies, Null) == last
  {
    var b, c := bodies[1..], bodies[1..][1..];
    assert c[0] == bodies[2] && c[1..] == [];
    var l0 := KeepLast(codec, Null, bodies[0]);
    assert LastParsed(codec, c, KeepLast(codec, l0, b[0])) == last;
    assert LastParsed(codec, b, l0) == last;
  }

  // ---- Reading a resource ----

  function ReadRequest(uri: string): Json {
    Obj(map[
      "jsonrpc" := Str("2.0"), "id" := Int(1), "method" := Str("resources/read"),
      "params" := Obj(map["uri" := Str(uri)])])
  }

  datatype Fetch = Fetched(uri: string, value: Json) | Refused(code: int, message: string) | Garbled

  // What a reader of a reply makes of it: the value its text parses to, or its error.
  function FetchFrom(codec: Codec, reply: Json): Fetch {
    if reply.Contains("error") then
      var e := reply.fields["error"];
      if e.Contains("code") && e.Contains("message") && e.fields["code"].Int? && e.fields["message"].Str?
      then Refused(e.fields["code"].n, e.fields["message"].s) else Garbled
    else if reply.Contains("result") && reply.fields["result"].Contains("contents") then
      var contents := reply.fields["result"].fields["contents"].Elements();
      if |contents| != 1 then Garbled
      else
        var uri, text := contents[0].StrValue("uri", ""), contents[0].StrValue("text", "");
        if uri.None? || text.None? || codec.parse(text.value).None? then Garbled
        else Fetched(uri.value, codec.parse(text.value).value)
    else Garbled
  }

  // What asking the handler directly would give.
  function DirectRead(h: Host, uri: string): Fetch {
    if uri !in h.resourceHandlers then Refused(-32602, "Unknown resource URI: " + uri)
    else match h.resourceHandlers[uri](uri)
      case Returned(v) => Fetched(uri, v)
      case Threw(what) => Refused(-32603, "Resource error: " + what)
  }

  lemma FetchOfRead(codec: Codec, h: Host, uri: string)
    requires Faithful(codec)
    ensures var a := ResourcesRead(codec, h, ReadRequest(uri));
            a.Reply? && FetchFrom(codec, a.message) == DirectRead(h, uri)
  {
    assert ParamsOf(ReadRequest(uri)) == Obj(map["uri" := Str(uri)]);
  }

  lemma ConverseRead(codec: Codec, h: Host, a: Json, b: Json)
    requires Calls(a, "initialize") && Calls(b, "resources/read")
    requires ResourcesRead(codec, h.(initialized := true), b).Reply?
    ensures var d := Converse(codec, h, [a, b]);
            && !d.crashed && |d.replies| == 2
            && ResourcesRead(codec, h.(initialized := true), b) == Reply(d.replies[1])
  {
    hide ResourcesRead;
    var h' := h.(initialized := true);
    assert [b][1..] == [] && [a, b][1..] == [b];
    assert "resources/read" != "initialize" && "resources/read" != "notifications/initialized";
    var reply := ResourcesRead(codec, h', b);
    assert Answer(codec, h', b) == reply && After(h', b) == h' && After(h, a) == h';
    assert Converse(codec, h', []) == Dialogue([], h', false);
    assert Converse(codec, h', [b]) == Dialogue([reply.message] + [], h', false);
  }

  // End to end: after an initialize, a framed read of a resource brings back the very value its
  // handler returns, its error, or the unknown-URI error, whatever state the host starts in.
  lemma ResourceReadEndToEnd(codec: Codec, h: Host, uri: string)
    requires Faithful(codec)
    requires |Frames(Dumps(codec, [InitRequest(), ReadRequest(uri)]))| < U64
    requires |Serve(codec, h, Open(Frames(Dumps(codec, [InitRequest(), ReadRequest(uri)])))).out| < U64
    ensures var run := Serve(codec, h, Open(Frames(Dumps(codec, [InitRequest(), ReadRequest(uri)]))));
            var replies := ReadAll(codec, Open(run.out));
            !run.crashed && |replies| == 2 && FetchFrom(codec, replies[1]) == DirectRead(h, uri)
  {
    hide Serve, Converse, Answer, ResourcesRead, Frame, FetchFrom, DirectRead, ReadAll;
    var reqs := [InitRequest(), ReadRequest(uri)];
    BodiesFit(codec, reqs);
    ServerRefinesDispatcher(codec, h, reqs);
    FetchOfRead(codec, h.(initialized := true), uri);
    ConverseRead(codec, h, InitRequest(), ReadRequest(uri));
    var replies := Converse(codec, h, reqs).replies;
    BodiesFit(codec, replies);
    ReadAllOfFrames(codec, replies);
    SameResources(h, uri);
  }

  lemma SameResources(h: Host, uri: string)
    ensures DirectRead(h.(initialized := true), uri) == DirectRead(h, uri)
  {
  }
}
