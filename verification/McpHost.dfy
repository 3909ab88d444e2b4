/**
The gateway's MCP host: the JSON-RPC dispatcher with its `initialized` gate, and
the stdio server loop that drives it over framed streams.
*/
module McpHost {
  import opened Text
  import opened JsonValue
  import opened McpFraming

  datatype McpTool = McpTool(name: string, description: string, inputSchema: Json)
  datatype McpResource = McpResource(uri: string, name: string, description: string, mimeType: string)

  // A handler call either returns a value or throws.
  datatype HandlerResult = Returned(value: Json) | Threw(what: string)
  type ToolHandler = Json -> HandlerResult
  type ResourceHandler = string -> HandlerResult

  datatype Host = Host(
    initialized: bool,
    tools: seq<McpTool>, handlers: map<string, ToolHandler>,
    resources: seq<McpResource>, resourceHandlers: map<string, ResourceHandler>)

  // What handle_request does: a reply, or an exception that leaves the server.
  datatype Outcome = Reply(message: Json) | Raised

  const NO_FIELDS: map<string, Json> := map[]

  function MakeResult(id: Json, result: Json): Json {
    Obj(map["jsonrpc" := Str("2.0"), "id" := id, "result" := result])
  }

  function MakeError(id: Json, code: int, message: string): Json {
    Obj(map["jsonrpc" := Str("2.0"), "id" := id,
            "error" := Obj(map["code" := Int(code), "message" := Str(message)])])
  }

  function IdOf(req: Json): Json
    requires req.Obj?
  {
    req.Value("id", Null).value
  }

  function ParamsOf(req: Json): Json
    requires req.Obj?
  {
    req.Value("params", Obj(NO_FIELDS)).value
  }

  function ServerInfo(): Json {
    Obj(map[
      "protocolVersion" := Str("2024-11-05"),
      "capabilities" := Obj(map["tools" := Obj(map["listChanged" := Bool(true)]),
                                "resources" := Obj(map["listChanged" := Bool(true)])]),
      "serverInfo" := Obj(map["name" := Str("euxis-gateway"), "version" := Str("0.0.3")])])
  }

  function ToolJson(t: McpTool): Json {
    Obj(map["name" := Str(t.name), "description" := Str(t.description), "inputSchema" := t.inputSchema])
  }

  function ResourceJson(r: McpResource): Json {
    Obj(map["uri" := Str(r.uri), "name" := Str(r.name),
            "description" := Str(r.description), "mimeType" := Str(r.mimeType)])
  }

  function ToolsList(h: Host): Json {
    Obj(map["tools" := Arr(seq(|h.tools|, i requires 0 <= i < |h.tools| => ToolJson(h.tools[i])))])
  }

  function ResourcesList(h: Host): Json {
    Obj(map["resources" :=
      Arr(seq(|h.resources|, i requires 0 <= i < |h.resources| => ResourceJson(h.resources[i])))])
  }

  function TextContent(text: string): Json {
    Obj(map["content" := Arr([Obj(map["type" := Str("text"), "text" := Str(text)])])])
  }

  function ToolsCall(codec: Codec, h: Host, req: Json): (o: Outcome)
    requires req.Obj?
    ensures o.Reply? ==> o.message.Obj?
  {
    var id, params := IdOf(req), ParamsOf(req);
    match params.StrValue("name", "")
    case None => Raised
    case Some(name) =>
      if name !in h.handlers then Reply(MakeError(id, -32601, "Unknown tool: " + name))
      else
        match h.handlers[name](params.Value("arguments", Obj(NO_FIELDS)).value)
        case Returned(v) => Reply(MakeResult(id, TextContent(codec.dump(v))))
        case Threw(what) => Reply(MakeError(id, -32603, "Tool error: " + what))
  }

  function ResourcesRead(codec: Codec, h: Host, req: Json): (o: Outcome)
    requires req.Obj?
    ensures o.Reply? ==> o.message.Obj?
  {
    var id := IdOf(req);
    match ParamsOf(req).StrValue("uri", "")
    case None => Raised
    case Some(uri) =>
      if uri !in h.resourceHandlers then Reply(MakeError(id, -32602, "Unknown resource URI: " + uri))
      else
        match h.resourceHandlers[uri](uri)
        case Returned(v) =>
          Reply(MakeResult(id, Obj(map["contents" := Arr([Obj(map[
            "uri" := Str(uri), "mimeType" := Str("application/json"), "text" := Str(codec.dump(v))])])])))
        case Threw(what) => Reply(MakeError(id, -32603, "Resource error: " + what))
  }

  predicate WellFormed(req: Json) {
    req.Contains("jsonrpc") && req.fields["jsonrpc"] == Str("2.0") && req.Contains("method")
  }

  predicate Calls(req: Json, methodName: string) {
    WellFormed(req) && req.fields["method"] == Str(methodName)
  }

  // Methods answered whatever the state of the gate.
  predicate Ungated(req: Json) {
    Calls(req, "initialize") || Calls(req, "notifications/initialized")
  }

  function Answer(codec: Codec, h: Host, req: Json): (o: Outcome)
    ensures o.Reply? ==> o.message.Obj?
  {
    if !req.Obj? then Raised
    else if !WellFormed(req) then Reply(MakeError(IdOf(req), -32600, "Invalid Request"))
    else if !req.fields["method"].Str? then Raised
    else
      var name, id := req.fields["method"].s, IdOf(req);
      if name == "initialize" then Reply(MakeResult(id, ServerInfo()))
      else if name == "notifications/initialized" then Reply(MakeResult(id, Obj(NO_FIELDS)))
      else if !h.initialized then Reply(MakeError(id, -32002, "Server not initialized"))
      else if name == "tools/list" then Reply(MakeResult(id, ToolsList(h)))
      else if name == "tools/call" then ToolsCall(codec, h, req)
      else if name == "resources/list" then Reply(MakeResult(id, ResourcesList(h)))
      else if name == "resources/read" then ResourcesRead(codec, h, req)
      else if name == "ping" then Reply(MakeResult(id, Obj(NO_FIELDS)))
      else Reply(MakeError(id, -32601, "Method not found"))
  }

  // Only an initialize request changes the host.
  function After(h: Host, req: Json): Host {
    if Calls(req, "initialize") then h.(initialized := true) else h
  }

  class McpServer {
    const codec: Codec
    var initialized: bool
    var tools: seq<McpTool>
    var handlers: map<string, ToolHandler>
    var resources: seq<McpResource>
    var resourceHandlers: map<string, ResourceHandler>

    constructor (codec: Codec)
      ensures this.codec == codec
      ensures View() == Host(false, [], map[], [], map[])
    {
      this.codec := codec;
      initialized, tools, handlers, resources, resourceHandlers := false, [], map[], [], map[];
    }

    function View(): Host
      reads this
    {
      Host(initialized, tools, handlers, resources, resourceHandlers)
    }

    // A second registration of a name is listed again and takes the calls over.
    method RegisterTool(name: string, description: string, inputSchema: Json, handler: ToolHandler)
      modifies this
      ensures View() == old(View()).(
        tools := old(tools) + [McpTool(name, description, inputSchema)],
        handlers := old(handlers)[name := handler])
    {
      tools := tools + [McpTool(name, description, inputSchema)];
      handlers := handlers[name := handler];
    }

    method RegisterResource(r: McpResource, handler: ResourceHandler)
      modifies this
      ensures View() == old(View()).(
        resources := old(resources) + [r],
        resourceHandlers := old(resourceHandlers)[r.uri := handler])
    {
      resources := resources + [r];
      resourceHandlers := resourceHandlers[r.uri := handler];
    }

    method HandleRequest(req: Json) returns (o: Outcome)
      modifies this`initialized
      ensures o == Answer(codec, old(View()), req)
      ensures View() == After(old(View()), req)
    {
      hide ServerInfo, ToolsList, ResourcesList, ToolsCall, ResourcesRead, MakeError, MakeResult;
      if !req.Contains("jsonrpc") || req.fields["jsonrpc"] != Str("2.0") || !req.Contains("method") {
        if !req.Obj? {
          return Raised;
        }
        return Reply(MakeError(IdOf(req), -32600, "Invalid Request"));
      }
      if !req.fields["method"].Str? {
        return Raised;
      }
      var name, id := req.fields["method"].s, IdOf(req);
      if name == "initialize" {
        o := HandleInitialize(req);
        return;
      }
      if name == "notifications/initialized" {
        return Reply(MakeResult(id, Obj(NO_FIELDS)));
      }
      if !initialized {
        return Reply(MakeError(id, -32002, "Server not initialized"));
      }
      if name == "tools/list" {
        var list := HandleToolsList();
        return Reply(MakeResult(id, list));
      }
      if name == "tools/call" {
        o := HandleToolsCall(req);
        return;
      }
      if name == "resources/list" {
        var list := HandleResourcesList();
        return Reply(MakeResult(id, list));
      }
      if name == "resources/read" {
        o := HandleResourcesRead(req);
        return;
      }
      if name == "ping" {
        return Reply(MakeResult(id, Obj(NO_FIELDS)));
      }
      o := Reply(MakeError(id, -32601, "Method not found"));
    }

    method HandleInitialize(req: Json) returns (o: Outcome)
      requires req.Obj?
      modifies this`initialized
      ensures initialized && o == Reply(MakeResult(IdOf(req), ServerInfo()))
    {
      initialized := true;
      o := Reply(MakeResult(IdOf(req), ServerInfo()));
    }

    method HandleToolsList() returns (list: Json)
      ensures list == ToolsList(View())
    {
      var items := [];
      for i := 0 to |tools|
        invariant |items| == i && forall k :: 0 <= k < i ==> items[k] == ToolJson(tools[k])
      {
        items := items + [ToolJson(tools[i])];
      }
      list := Obj(map["tools" := Arr(items)]);
      assert items == ToolsList(View()).fields["tools"].items;
    }

    method HandleResourcesList() returns (list: Json)
      ensures list == ResourcesList(View())
    {
      var items := [];
      for i := 0 to |resources|
        invariant |items| == i && forall k :: 0 <= k < i ==> items[k] == ResourceJson(resources[k])
      {
        items := items + [ResourceJson(resources[i])];
      }
      list := Obj(map["resources" := Arr(items)]);
      assert items == ResourcesList(View()).fields["resources"].items;
    }

    method HandleToolsCall(req: Json) returns (o: Outcome)
      requires req.Obj?
      ensures o == ToolsCall(codec, View(), req)
    {
      var params := ParamsOf(req);
      var name := params.StrValue("name", "");
      if name.None? {
        return Raised;
      }
      if name.value !in handlers {
        return Reply(MakeError(IdOf(req), -32601, "Unknown tool: " + name.value));
      }
      match handlers[name.value](params.Value("arguments", Obj(NO_FIELDS)).value) {
        case Returned(v) => o := Reply(MakeResult(IdOf(req), TextContent(codec.dump(v))));
        case Threw(what) => o := Reply(MakeError(IdOf(req), -32603, "Tool error: " + what));
      }
    }

    method HandleResourcesRead(req: Json) returns (o: Outcome)
      requires req.Obj?
      ensures o == ResourcesRead(codec, View(), req)
    {
      var uri := ParamsOf(req).StrValue("uri", "");
      if uri.None? {
        return Raised;
      }
      if uri.value !in resourceHandlers {
        return Reply(MakeError(IdOf(req), -32602, "Unknown resource URI: " + uri.value));
      }
      match resourceHandlers[uri.value](uri.value) {
        case Returned(v) =>
          o := Reply(MakeResult(IdOf(req), Obj(map["contents" := Arr([Obj(map[
            "uri" := Str(uri.value), "mimeType" := Str("application/json"), "text" := Str(codec.dump(v))])])])));
        case Threw(what) => o := Reply(MakeError(IdOf(req), -32603, "Resource error: " + what));
      }
    }

    // What the server will have done in the end, seen from after a turn.
    function Remaining(turn: Turn, input: InputStream, output: OutputStream): Run
      reads this, input, output
    {
      if turn.Continue? then Serve(codec, View(), input.View()).After(output.written)
      else Run(output.written, View(), turn.Crashed?)
    }

    // process_one: true while the stream yields messages.
    method ProcessOne(input: InputStream, output: OutputStream) returns (turn: Turn)
      modifies this`initialized, input, output
      ensures Serve(codec, old(View()), old(input.View())).After(old(output.written)) ==
              Remaining(turn, input, output)
      ensures turn.Continue? ==> |input.rest| < |old(input.rest)|
    {
      var message := ReadFrameFrom(codec, input);
      if message.None? {
        return Finished;
      }
      var o := HandleRequest(message.value);
      if o.Raised? {
        return Crashed;
      }
      if !o.message.Null? {
        WriteFrame(codec, output, o.message);
      }
      turn := Continue;
      Serve(codec, View(), input.View()).AfterTwice(old(output.written), Frame(codec.dump(o.message)));
    }

    method RunLoop(input: InputStream, output: OutputStream) returns (crashed: bool)
      modifies this`initialized, input, output
      ensures Run(output.written, View(), crashed) ==
              Serve(codec, old(View()), old(input.View())).After(old(output.written))
    {
      var turn := Continue;
      while turn.Continue?
        invariant Serve(codec, old(View()), old(input.View())).After(old(output.written)) ==
                  Remaining(turn, input, output)
        decreases turn.Continue?, |input.rest|
      {
        turn := ProcessOne(input, output);
      }
      crashed := turn.Crashed?;
    }
  }

  datatype Turn = Continue | Finished | Crashed

  // What a server loop writes, the host it leaves, and whether an exception ended it.
  datatype Run = Run(out: string, host: Host, crashed: bool)
  {
    function After(written: string): Run {
      this.(out := written + out)
    }

    lemma AfterTwice(first: string, second: string)
      ensures After(second).After(first) == After(first + second)
    {
      assert first + (second + out) == first + second + out;
    }
  }

  // The whole server loop as a function of the host and the input.
  function Serve(codec: Codec, h: Host, input: Stream): Run
    decreases |input.rest|
  {
    var (message, input') := ReadFrame(codec, input);
    if message.None? then Run("", h, false)
    else
      var h' := After(h, message.value);
      match Answer(codec, h, message.value)
      case Raised => Run("", h', true)
      case Reply(r) => Serve(codec, h', input').After(Frame(codec.dump(r)))
  }

  // The same conversation with the bytes taken away: requests in, replies out.
  datatype Dialogue = Dialogue(replies: seq<Json>, host: Host, crashed: bool)

  function Converse(codec: Codec, h: Host, reqs: seq<Json>): Dialogue
    decreases |reqs|
  {
    if reqs == [] then Dialogue([], h, false)
    else
      var h' := After(h, reqs[0]);
      match Answer(codec, h, reqs[0])
      case Raised => Dialogue([], h', true)
      case Reply(r) =>
        var d := Converse(codec, h', reqs[1..]);
        d.(replies := [r] + d.replies)
  }

  // One frame at the head of the input is one turn of the dispatcher.
  lemma OneExchange(codec: Codec, h: Host, req: Json, rest: string)
    requires codec.parse(codec.dump(req)) == Some(req) && 0 < |codec.dump(req)| < U64
    ensures Serve(codec, h, Open(Frame(codec.dump(req)) + rest)) ==
            match Answer(codec, h, req)
            case Raised => Run("", After(h, req), true)
            case Reply(r) => Serve(codec, After(h, req), Open(rest)).After(Frame(codec.dump(r)))
  {
    ReadFrameOfFrame(codec, codec.dump(req), rest);
  }

  lemma FramesOfCons(codec: Codec, head: Json, tail: seq<Json>)
    ensures Frames(Dumps(codec, [head] + tail)) == Frame(codec.dump(head)) + Frames(Dumps(codec, tail))
  {
    assert Dumps(codec, [head] + tail)[1..] == Dumps(codec, tail);
  }

  // The byte-level server refines the dispatcher: for every sequence of requests it
  // writes exactly the frames of the replies, and ends in the same state.
  lemma {:induction false} ServerRefinesDispatcher(codec: Codec, h: Host, reqs: seq<Json>)
    requires Faithful(codec)
    requires forall i :: 0 <= i < |reqs| ==> |codec.dump(reqs[i])| < U64
    ensures var d := Converse(codec, h, reqs);
            Serve(codec, h, Open(Frames(Dumps(codec, reqs)))) ==
            Run(Frames(Dumps(codec, d.replies)), d.host, d.crashed)
    decreases |reqs|
  {
    if reqs == [] {
      ReadFrameAtEnd(codec);
    } else {
      var req, rest := reqs[0], reqs[1..];
      assert reqs == [req] + rest;
      FramesOfCons(codec, req, rest);
      OneExchange(codec, h, req, Frames(Dumps(codec, rest)));
      var a := Answer(codec, h, req);
      if a.Reply? {
        ServerRefinesDispatcher(codec, After(h, req), rest);
        FramesOfCons(codec, a.message, Converse(codec, After(h, req), rest).replies);
      }
    }
  }

  ghost predicate RefusedAsUninitialized(r: Json) {
    r.Contains("error") && r.fields["error"].Contains("code") && r.fields["error"].fields["code"] == Int(-32002)
  }

  ghost predicate OpensBefore(h: Host, reqs: seq<Json>, i: nat)
    requires i <= |reqs|
  {
    h.initialized || exists k :: 0 <= k < i && Calls(reqs[k], "initialize")
  }

  // The gate over whole conversations: a reply refuses with "not initialized" exactly when
  // its request is a well-formed gated call and no initialize came before it.
  lemma {:induction false} GateOverRuns(codec: Codec, h: Host, reqs: seq<Json>, i: nat)
    requires i < |Converse(codec, h, reqs).replies|
    ensures i < |reqs|
    ensures RefusedAsUninitialized(Converse(codec, h, reqs).replies[i]) <==>
            WellFormed(reqs[i]) && !Ungated(reqs[i]) && !OpensBefore(h, reqs, i)
    decreases i
  {
    if i > 0 {
      GateOverRuns(codec, After(h, reqs[0]), reqs[1..], i - 1);
      assert OpensBefore(h, reqs, i) <==> OpensBefore(After(h, reqs[0]), reqs[1..], i - 1) by {
        if OpensBefore(h, reqs, i) && !After(h, reqs[0]).initialized {
          var k :| 0 <= k < i && Calls(reqs[k], "initialize");
          assert reqs[1..][k - 1] == reqs[k];
        }
        if OpensBefore(After(h, reqs[0]), reqs[1..], i - 1) && !After(h, reqs[0]).initialized {
          var k :| 0 <= k < i - 1 && Calls(reqs[1..][k], "initialize");
          assert reqs[k + 1] == reqs[1..][k];
        }
      }
    }
  }

  // ---- Replies are those of JSON-RPC 2.0 ----

  // A response object of section 5: the request's id, and either a result or an error.
  predicate Responds(r: Json, req: Json) {
    && r.Obj? && r.Contains("jsonrpc") && r.fields["jsonrpc"] == Str("2.0")
    && r.Contains("id") && r.fields["id"] == (if req.Contains("id") then req.fields["id"] else Null)
    && (r.Contains("result") <==> !r.Contains("error"))
    && (r.Contains("error") ==>
          r.fields["error"].Contains("code") && r.fields["error"].fields["code"].Int? &&
          r.fields["error"].Contains("message") && r.fields["error"].fields["message"].Str?)
  }

  lemma ResultResponds(req: Json, result: Json)
    requires req.Obj?
    ensures Responds(MakeResult(IdOf(req), result), req)
  {
  }

  lemma ErrorResponds(req: Json, code: int, message: string)
    requires req.Obj?
    ensures Responds(MakeError(IdOf(req), code, message), req)
  {
  }

  lemma AllRespond(req: Json)
    requires req.Obj?
    ensures forall result :: Responds(MakeResult(IdOf(req), result), req)
    ensures forall code, message :: Responds(MakeError(IdOf(req), code, message), req)
  {
    forall result ensures Responds(MakeResult(IdOf(req), result), req) {
      ResultResponds(req, result);
    }
    forall code, message ensures Responds(MakeError(IdOf(req), code, message), req) {
      ErrorResponds(req, code, message);
    }
  }

  lemma CallResponds(codec: Codec, h: Host, req: Json)
    requires req.Obj?
    ensures var o := ToolsCall(codec, h, req);
            o.Reply? ==> Responds(o.message, req)
  {
    AllRespond(req);
    hide TextContent, MakeResult, MakeError, Responds, IdOf, ParamsOf;
  }

  lemma ReadResponds(codec: Codec, h: Host, req: Json)
    requires req.Obj?
    ensures var o := ResourcesRead(codec, h, req);
            o.Reply? ==> Responds(o.message, req)
  {
    AllRespond(req);
    hide TextContent, MakeResult, MakeError, Responds, IdOf, ParamsOf;
  }

  lemma AnswerResponds(codec: Codec, h: Host, req: Json)
    ensures var o := Answer(codec, h, req);
            o.Reply? ==> Responds(o.message, req)
  {
    hide ServerInfo, ToolsList, ResourcesList, ToolsCall, ResourcesRead, MakeResult, MakeError, Responds, IdOf;
    if req.Obj? {
      AllRespond(req);
      CallResponds(codec, h, req);
      ReadResponds(codec, h, req);
    }
  }

  // Over whole conversations: one response per request, in order, until an exception ends it.
  lemma {:induction false} RepliesMatchRequests(codec: Codec, h: Host, reqs: seq<Json>)
    ensures var d := Converse(codec, h, reqs);
            && (if d.crashed then |d.replies| < |reqs| else |d.replies| == |reqs|)
            && forall i :: 0 <= i < |d.replies| ==> Responds(d.replies[i], reqs[i])
    decreases |reqs|
  {
    hide Answer, Responds;
    if reqs != [] {
      AnswerResponds(codec, h, reqs[0]);
      var rest := reqs[1..];
      RepliesMatchRequests(codec, After(h, reqs[0]), rest);
      assert forall i :: 0 < i < |reqs| ==> reqs[i] == rest[i - 1];
    }
  }

  function CodeOf(r: Json): Option<int> {
    if r.Contains("error") && r.fields["error"].Contains("code") && r.fields["error"].fields["code"].Int?
    then Some(r.fields["error"].fields["code"].n) else None
  }

  const KNOWN_METHODS: set<string> := {
    "initialize", "notifications/initialized", "tools/list", "tools/call", "resources/list", "resources/read", "ping"}

  // What is refused outright: a request that is none, and a method nobody knows.
  lemma RefusedOutright(codec: Codec, h: Host, req: Json)
    requires req.Obj?
    ensures var wellFormed := "jsonrpc" in req.fields && req.fields["jsonrpc"] == Str("2.0") && "method" in req.fields;
            var o := Answer(codec, h, req);
            && (o.Reply? && CodeOf(o.message) == Some(-32600) <==> !wellFormed)
            && (!wellFormed ==> o == Reply(MakeError(IdOf(req), -32600, "Invalid Request")))
            && (wellFormed && req.fields["method"].Str? && !h.initialized &&
                req.fields["method"].s !in {"initialize", "notifications/initialized"} ==>
                  o == Reply(MakeError(IdOf(req), -32002, "Server not initialized")))
            && (wellFormed && req.fields["method"].Str? && h.initialized && req.fields["method"].s !in KNOWN_METHODS ==>
                  o == Reply(MakeError(IdOf(req), -32601, "Method not found")))
  {
    hide ServerInfo, ToolsList, ResourcesList, TextContent;
  }

  // The other methods are answered with their result: nothing for a ping, the lists for a list.
  lemma PlainMethods(codec: Codec, h: Host, req: Json)
    requires h.initialized && WellFormed(req)
    ensures Calls(req, "ping") ==> Answer(codec, h, req) == Reply(MakeResult(IdOf(req), Obj(map[])))
    ensures Calls(req, "tools/list") ==> Answer(codec, h, req) == Reply(MakeResult(IdOf(req), ToolsList(h)))
    ensures Calls(req, "resources/list") ==> Answer(codec, h, req) == Reply(MakeResult(IdOf(req), ResourcesList(h)))
  {
    hide ServerInfo, ToolsList, ResourcesList, ToolsCall, ResourcesRead, MakeResult, MakeError;
  }

  // What a client reads of the lists: every registration, in order, with all that was registered.
  lemma ListsReadBack(h: Host, i: nat)
    ensures i < |h.tools| ==>
            var items := ToolsList(h).fields["tools"].items;
            && |items| == |h.tools| && items[i].StrValue("name", "") == Some(h.tools[i].name)
            && items[i].StrValue("description", "") == Some(h.tools[i].description)
            && items[i].Value("inputSchema", Null) == Some(h.tools[i].inputSchema)
    ensures i < |h.resources| ==>
            var items := ResourcesList(h).fields["resources"].items;
            && |items| == |h.resources| && items[i].StrValue("uri", "") == Some(h.resources[i].uri)
            && items[i].StrValue("name", "") == Some(h.resources[i].name)
            && items[i].StrValue("description", "") == Some(h.resources[i].description)
            && items[i].StrValue("mimeType", "") == Some(h.resources[i].mimeType)
  {
    if i < |h.tools| {
      assert ToolsList(h).fields["tools"].items[i] == ToolJson(h.tools[i]);
    }
    if i < |h.resources| {
      assert ResourcesList(h).fields["resources"].items[i] == ResourceJson(h.resources[i]);
    }
  }
}
