/** Properties of every run of lines on one connection, for every backend. */
module ServerRuns {
  import opened Text
  import opened Json
  import opened Sanitize
  import opened SanitizeTheorems
  import opened ToolCalls
  import opened ToolCallTheorems
  import opened Server

  // ----- what a line is, whatever the state of the connection

  /** The fields of a line that decodes to an object. */
  function Message(host: Host, line: string): Option<map<string, Value>>
  {
    match host.decode(line)
    case Ok(Object(fields)) => Some(fields)
    case _ => None
  }

  predicate Notification(host: Host, line: string)
  {
    var message := Message(host, line);
    message.Some? && "id" !in message.value
  }

  /** The version of the protocol and some method name. */
  predicate Versioned(fields: map<string, Value>)
  {
    && "jsonrpc" in fields && fields["jsonrpc"] == String("2.0")
    && "method" in fields && fields["method"].String?
  }

  /** A request the dispatcher sees: an identifier that is a string or a number, and this method name. */
  predicate Requests(host: Host, line: string, name: string)
  {
    var message := Message(host, line);
    && message.Some? && "id" in message.value && (message.value["id"].String? || message.value["id"].Number?)
    && Versioned(message.value) && message.value["method"] == String(name)
  }

  function ParamsIn(host: Host, line: string): Option<Value>
  {
    var message := Message(host, line);
    if message.Some? && "params" in message.value then Some(message.value["params"]) else None
  }

  /** The text of this parameter. */
  function TextIn(host: Host, line: string, key: string): Option<string>
  {
    match ParamsIn(host, line)
    case Some(Object(fields)) => if key in fields && fields[key].String? then Some(fields[key].text) else None
    case _ => None
  }

  /** A well-formed request to initialise. */
  predicate Opens(host: Host, line: string)
  {
    Requests(host, line, "initialize") && TextIn(host, line, "protocolVersion").Some?
  }

  /** The tool name and arguments of a well-formed tool request; no arguments are an empty object. */
  function ToolRequest(host: Host, line: string): Option<(string, Value)>
  {
    var name := TextIn(host, line, "name");
    if Requests(host, line, "tools/call") && name.Some? then
      var fields := ParamsIn(host, line).value.fields;
      Some((name.value, if "arguments" in fields then fields["arguments"] else Object(map[])))
    else None
  }

  function ResourceRequest(host: Host, line: string): Option<string>
  {
    if Requests(host, line, "resources/read") then TextIn(host, line, "uri") else None
  }

  /** The call that reading a resource stands for, told by the text of its URI. */
  ghost predicate ReadAs(uri: string, call: ToolCall)
  {
    || (uri == "blobyard://session/identity" && call == ToolCall("whoami", Scope(None, None), map[]))
    || exists project :: project != "" && '/' !in project && ReadIn(project, uri, call)
  }

  ghost predicate ReadIn(project: string, uri: string, call: ToolCall)
  {
    var scope := Scope(None, Some(project));
    || (&& uri == "blobyard://projects/" + project + "/objects"
        && call == ToolCall("list_objects", scope, map["versions" := Flag(false)]))
    || (uri == "blobyard://projects/" + project + "/retention" && call == ToolCall("get_retention", scope, map[]))
  }

  lemma ProjectResource(project: string, resource: string)
    requires '/' !in project
    ensures var uri := "blobyard://projects/" + project + "/" + resource;
            && StripPrefix(uri, "blobyard://projects/") == Some(project + "/" + resource)
            && SplitOnce(project + "/" + resource, '/') == Some((project, resource))
            && uri != "blobyard://session/identity"
  {
    hide SplitOnce;
    var prefix, rest := "blobyard://projects/", project + "/" + resource;
    SplitOnceConcat(project, '/', resource);
    StripPrefixConcat(prefix, rest);
    assert prefix + project + "/" + resource == prefix + rest;
    assert (prefix + rest)[11] == 'p';
  }

  lemma ProjectReads(project: string)
    requires project != "" && '/' !in project
    ensures var scope := Scope(None, Some(project));
            && ResourceCall("blobyard://projects/" + project + "/objects") ==
                 Some(ToolCall("list_objects", scope, map["versions" := Flag(false)]))
            && ResourceCall("blobyard://projects/" + project + "/retention") ==
                 Some(ToolCall("get_retention", scope, map[]))
  {
    hide SplitOnce, StripPrefix;
    ProjectResource(project, "objects");
    ProjectResource(project, "retention");
    var base := "blobyard://projects/" + project;
    assert base + "/" + "objects" == base + "/objects" && base + "/" + "retention" == base + "/retention";
  }

  lemma ResourceReads(uri: string, call: ToolCall)
    requires uri != "blobyard://session/identity" && ResourceCall(uri) == Some(call)
    ensures exists project :: project != "" && '/' !in project && ReadIn(project, uri, call)
  {
    hide SplitOnce, StripPrefix;
    var rest := StripPrefix(uri, "blobyard://projects/").value;
    var (project, resource) := SplitOnce(rest, '/').value;
    assert uri == "blobyard://projects/" + project + ("/" + resource);
    assert "/" + "objects" == "/objects" && "/" + "retention" == "/retention";
    assert ReadIn(project, uri, call);
  }

  /** The identity, the objects of a project and its retention are read; every other text is not found. */
  lemma ResourceCallExact(uri: string, call: ToolCall)
    ensures ResourceCall(uri) == Some(call) <==> ReadAs(uri, call)
  {
    hide SplitOnce, StripPrefix, ReadIn, ResourceCall;
    IdentityRead();
    if uri != "blobyard://session/identity" {
      if ResourceCall(uri) == Some(call) { ResourceReads(uri, call); }
      if ReadAs(uri, call) {
        var project :| project != "" && '/' !in project && ReadIn(project, uri, call);
        ReadInExact(project, uri, call);
      }
    } else {
      forall project | project != "" && '/' !in project && ReadIn(project, uri, call)
        ensures ResourceCall(uri) == Some(call)
      {
        ReadInExact(project, uri, call);
      }
    }
  }

  lemma IdentityRead()
    ensures ResourceCall("blobyard://session/identity") == Some(ToolCall("whoami", Scope(None, None), map[]))
  {
  }

  lemma ReadInExact(project: string, uri: string, call: ToolCall)
    requires project != "" && '/' !in project && ReadIn(project, uri, call)
    ensures ResourceCall(uri) == Some(call)
  {
    hide ResourceCall;
    ProjectReads(project);
  }

  /** The backend call a line asks for. */
  function Asks(host: Host, line: string): Option<ToolCall>
  {
    var tool, resource := ToolRequest(host, line), ResourceRequest(host, line);
    if tool.Some? then
      var call := Parse(tool.value.0, tool.value.1);
      if call.Ok? then Some(call.value) else None
    else if resource.Some? then ResourceCall(resource.value)
    else None
  }

  lemma DispatchFacts(host: Host, initialized: bool, id: Value, name: string, params: Option<Value>)
    ensures var action := Dispatch(host, initialized, id, name, params);
            && !action.Silent?
            && (action.Start? <==> !initialized && name == "initialize" && RequestedVersion(params).Some?)
            && (action.Invoke? ==> initialized && (name == "tools/call" || name == "resources/read"))
            && (initialized && name == "tools/call" ==> action == ToolAction(id, params))
            && (initialized && name == "resources/read" ==> action == ResourceAction(id, params))
  {
    hide Parse, ResourceCall;
  }

  lemma ClassifyFacts(host: Host, initialized: bool, line: string)
    ensures var action := Classify(host, initialized, line);
            && (action.Silent? <==> Notification(host, line))
            && (action.Start? <==> !initialized && Opens(host, line))
            && (action.Invoke? <==> initialized && Asks(host, line).Some?)
            && (action.Invoke? ==> action.call == Asks(host, line).value)
  {
    hide Parse, ResourceCall, Dispatch;
    var message := Message(host, line);
    if message.Some? && "id" in message.value && ValidId(message.value["id"]) && WellFormed(message.value) {
      var fields := message.value;
      var name := fields["method"].text;
      DispatchFacts(host, initialized, fields["id"], name, Get(fields, "params"));
      assert forall n :: Requests(host, line, n) <==> n == name;
    }
  }

  // ----- initialisation happens exactly once

  lemma AfterStep(host: Host, lines: seq<string>, line: string)
    ensures After(host, lines + [line]) == Step(host, After(host, lines), line).0
    ensures ReplyTo(host, lines + [line], |lines|) == Step(host, After(host, lines), line).1
    ensures Transcript(host, lines + [line]) ==
            var reply := ReplyTo(host, lines + [line], |lines|);
            Transcript(host, lines) + if reply.Some? then [reply.value] else []
  {
    hide Step;
    assert (lines + [line])[..|lines|] == lines;
  }

  lemma LastLine(lines: seq<string>)
    requires lines != []
    ensures lines == lines[..|lines| - 1] + [lines[|lines| - 1]]
  {
  }

  /** The connection is initialised exactly when some line so far was a well-formed `initialize`. */
  lemma {:induction false} InitializedExactly(host: Host, lines: seq<string>)
    ensures After(host, lines).initialized <==> exists i | 0 <= i < |lines| :: Opens(host, lines[i])
  {
    hide Classify, Opens;
    if lines != [] {
      var init, line := lines[..|lines| - 1], lines[|lines| - 1];
      LastLine(lines);
      InitializedExactly(host, init);
      AfterStep(host, init, line);
      ClassifyFacts(host, After(host, init).initialized, line);
      if exists i | 0 <= i < |lines| :: Opens(host, lines[i]) {
        var i :| 0 <= i < |lines| && Opens(host, lines[i]);
        assert i < |init| ==> init[i] == lines[i];
      }
      if Opens(host, line) { assert Opens(host, lines[|init|]); }
      if After(host, init).initialized {
        var i :| 0 <= i < |init| && Opens(host, init[i]);
        assert Opens(host, lines[i]);
      }
    }
  }

  /** The requested version when it is one of the four, and otherwise the newest of them. */
  function Settled(requested: string): string
  {
    if requested == "2025-06-18" || requested == "2025-03-26" || requested == "2024-11-05" then requested
    else "2025-11-25"
  }

  lemma SettledExact(requested: string)
    ensures Negotiate(requested) == Settled(requested)
  {
  }

  /** The first well-formed `initialize` of a run succeeds and settles on a supported version, the
      requested one when it is supported; every later one is refused. */
  lemma OpeningReply(host: Host, lines: seq<string>, i: nat)
    requires i < |lines| && Opens(host, lines[i])
    ensures var id := Message(host, lines[i]).value["id"];
            var requested := TextIn(host, lines[i], "protocolVersion").value;
            ReplyTo(host, lines, i) ==
              if exists j | 0 <= j < i :: Opens(host, lines[j])
              then Some(Error(id, -32600, "Server already initialized", None))
              else Some(Success(id, Object(host.introduction["protocolVersion" := String(Settled(requested))])))
  {
    var init := lines[..i];
    InitializedExactly(host, init);
    assert forall j | 0 <= j < i :: init[j] == lines[j];
    assert (exists j | 0 <= j < i :: Opens(host, lines[j])) <==> exists j | 0 <= j < |init| :: Opens(host, init[j]) by {
      hide Opens;
      if j :| 0 <= j < i && Opens(host, lines[j]) { assert Opens(host, init[j]); }
    }
    OpeningStep(host, After(host, init), lines[i]);
  }

  lemma OpeningStep(host: Host, st: State, line: string)
    requires Opens(host, line)
    ensures var id := Message(host, line).value["id"];
            var requested := TextIn(host, line, "protocolVersion").value;
            Step(host, st, line).1 ==
              Some(if st.initialized then Error(id, -32600, "Server already initialized", None)
                   else Success(id, Object(host.introduction["protocolVersion" := String(Settled(requested))])))
  {
    hide Settled, Negotiate;
    SettledExact(TextIn(host, line, "protocolVersion").value);
  }

  // ----- backend calls

  /** The calls asked for by lines that follow a well-formed `initialize`, in order. */
  ghost function Admitted(host: Host, lines: seq<string>): seq<ToolCall>
  {
    if lines == [] then []
    else
      var init, line := lines[..|lines| - 1], lines[|lines| - 1];
      var started := exists i | 0 <= i < |init| :: Opens(host, init[i]);
      Admitted(host, init) + if started && Asks(host, line).Some? then [Asks(host, line).value] else []
  }

  /** The backend receives exactly those calls: none before initialisation, at most one for each line,
      none dropped and none repeated. */
  lemma {:induction false} CallsExactly(host: Host, lines: seq<string>)
    ensures After(host, lines).calls == Admitted(host, lines)
  {
    hide Classify, Opens, Asks;
    if lines != [] {
      var init, line := lines[..|lines| - 1], lines[|lines| - 1];
      LastLine(lines);
      CallsExactly(host, init);
      InitializedExactly(host, init);
      AfterStep(host, init, line);
      ClassifyFacts(host, After(host, init).initialized, line);
    }
  }

  /** Before any well-formed `initialize` the backend is never reached. */
  lemma NoCallBeforeOpening(host: Host, lines: seq<string>)
    requires forall i | 0 <= i < |lines| :: !Opens(host, lines[i])
    ensures After(host, lines).calls == []
  {
    CallsExactly(host, lines);
    NothingAdmitted(host, lines);
  }

  lemma {:induction false} NothingAdmitted(host: Host, lines: seq<string>)
    requires forall i | 0 <= i < |lines| :: !Opens(host, lines[i])
    ensures Admitted(host, lines) == []
  {
    hide Opens;
    if lines != [] {
      var init := lines[..|lines| - 1];
      assert forall i | 0 <= i < |init| :: init[i] == lines[i];
      NothingAdmitted(host, init);
    }
  }

  /** A tool request that parses to this call, whose arguments carry the safeguard, if the tool has one,
      and no foreign key. */
  ghost predicate AuthorisedBy(host: Host, line: string, call: ToolCall)
  {
    var request := ToolRequest(host, line);
    && request.Some? && request.value.0 == TOOL_PREFIX + call.tool
    && Parse(request.value.0, request.value.1) == Ok(call)
    && request.value.1.Object? && Authorised(call, request.value.1.fields)
  }

  /** The read-only call that the URI of a resource read stands for. */
  ghost predicate ReadBy(host: Host, line: string, call: ToolCall)
  {
    ResourceRequest(host, line).Some? && ReadAs(ResourceRequest(host, line).value, call)
  }

  lemma AskedIsAuthorised(host: Host, line: string)
    requires Asks(host, line).Some?
    ensures AuthorisedBy(host, line, Asks(host, line).value) || ReadBy(host, line, Asks(host, line).value)
  {
    hide Params, AllowedKeys, Safeguard, Parse, ToolRequest, ResourceRequest;
    var request := ToolRequest(host, line);
    if request.Some? {
      ParsedIsAuthorised(request.value.0, request.value.1);
      ParseExact(request.value.0, request.value.1);
    } else {
      ResourceCallExact(ResourceRequest(host, line).value, Asks(host, line).value);
    }
  }

  /** Every call the backend ever receives was authorised by a line of the run. */
  lemma {:induction false} EveryCallAuthorised(host: Host, lines: seq<string>, k: nat)
    requires k < |After(host, lines).calls|
    ensures var call := After(host, lines).calls[k];
            exists i | 0 <= i < |lines| :: AuthorisedBy(host, lines[i], call) || ReadBy(host, lines[i], call)
  {
    hide Opens, Asks, AuthorisedBy, ReadBy, Step, After;
    CallsExactly(host, lines);
    AdmittedAuthorised(host, lines, k);
  }

  lemma {:induction false} AdmittedAuthorised(host: Host, lines: seq<string>, k: nat)
    ensures k < |Admitted(host, lines)| ==>
              var call := Admitted(host, lines)[k];
              exists i | 0 <= i < |lines| :: AuthorisedBy(host, lines[i], call) || ReadBy(host, lines[i], call)
  {
    hide Opens, Asks, AuthorisedBy, ReadBy;
    if k < |Admitted(host, lines)| {
      var n := |lines| - 1;
      var init, line := lines[..n], lines[n];
      var call := Admitted(host, lines)[k];
      if k < |Admitted(host, init)| {
        AdmittedAuthorised(host, init, k);
        var i :| 0 <= i < |init| && (AuthorisedBy(host, init[i], call) || ReadBy(host, init[i], call));
        assert AuthorisedBy(host, lines[i], call) || ReadBy(host, lines[i], call);
      } else {
        AskedIsAuthorised(host, line);
        assert AuthorisedBy(host, lines[n], call) || ReadBy(host, lines[n], call);
      }
    }
  }

  /** A line of the run parsed to this call and carried this argument as the boolean `true`. */
  ghost predicate Carrying(host: Host, line: string, call: ToolCall, key: string)
  {
    var request := ToolRequest(host, line);
    && request.Some? && request.value.1.Object? && Parse(request.value.0, request.value.1) == Ok(call)
    && Get(request.value.1.fields, key) == Some(Bool(true))
  }

  /** A call whose parser demands a safeguard reaches the backend only if the line it was parsed from
      carried it. */
  lemma SafeguardedCall(host: Host, lines: seq<string>, k: nat, key: string)
    requires k < |After(host, lines).calls| && Demands(After(host, lines).calls[k].tool, key)
    ensures exists i | 0 <= i < |lines| :: Carrying(host, lines[i], After(host, lines).calls[k], key)
  {
    hide After, ToolRequest, KnownTool, AllowedKeys, Parse, ResourceCall, Demands, Safeguard;
    var call := After(host, lines).calls[k];
    SafeguardExact(call.tool, key);
    EveryCallAuthorised(host, lines, k);
    var i :| 0 <= i < |lines| && (AuthorisedBy(host, lines[i], call) || ReadBy(host, lines[i], call));
    ReadsNeedNoSafeguard();
    assert AuthorisedBy(host, lines[i], call);
    assert Carrying(host, lines[i], call, key);
  }

  lemma ReadsNeedNoSafeguard()
    ensures Safeguard("whoami").None? && Safeguard("list_objects").None? && Safeguard("get_retention").None?
  {
  }

  /** In any run, a call to a tool that a catalogue lists as destructive carried `confirm`, unless it is
      one of the main catalogue's other than the deletion of a Yard. */
  lemma DestructiveCall(host: Host, lines: seq<string>, k: nat)
    requires k < |After(host, lines).calls|
    requires var tool := After(host, lines).calls[k].tool;
             Destructive(tool).Some? && (Destructive(tool) != Some(Main) || tool == "delete_web_yard")
    ensures exists i | 0 <= i < |lines| :: Carrying(host, lines[i], After(host, lines).calls[k], "confirm")
  {
    hide After, Demands, Destructive, Carrying;
    ConfirmationExact(After(host, lines).calls[k].tool);
    SafeguardedCall(host, lines, k, "confirm");
  }

  const OPENING := Object(map[
    "jsonrpc" := String("2.0"), "id" := String("1"), "method" := String("initialize"),
    "params" := Object(map["protocolVersion" := String(PROTOCOL_VERSION)])])

  const DELETE_ARGUMENTS: map<string, Value> := map["uri" := String("blobyard://w/p/o")]

  const DELETION := Object(map[
    "jsonrpc" := String("2.0"), "id" := String("2"), "method" := String("tools/call"),
    "params" := Object(map["name" := String("blobyard_delete_object"), "arguments" := Object(DELETE_ARGUMENTS)])])

  /** Any host on which the line `open` decodes to an `initialize` and every other line to a deletion. */
  function DeletingHost(host: Host): Host
  {
    host.(decode := (line: string) => Ok(if line == "open" then OPENING else DELETION))
  }

  const DELETE_CALL := ToolCall("delete_object", NO_SCOPE, map["uri" := Text("blobyard://w/p/o")])

  lemma DeleteInNoOtherFamily()
    ensures GroupParams("delete_object").None? && AdminParams("delete_object").None?
    ensures DashboardParams("delete_object").None? && GuestParams("delete_object").None?
  {
  }

  lemma DeleteIsRegular()
    ensures Params("delete_object") == Some([Required("uri")])
    ensures {"uri"} <= AllowedKeys("delete_object")
  {
    hide GroupParams, AdminParams, DashboardParams, GuestParams;
    DeleteInNoOtherFamily();
  }

  lemma DeletionParses()
    ensures Parse("blobyard_delete_object", Object(DELETE_ARGUMENTS)) == Ok(DELETE_CALL)
  {
    hide Params, AllowedKeys;
    DeleteIsRegular();
    assert "blobyard_delete_object" == TOOL_PREFIX + "delete_object";
    StripPrefixConcat(TOOL_PREFIX, "delete_object");
    assert DELETE_ARGUMENTS.Keys == {"uri"};
    assert ReadAll(DELETE_ARGUMENTS, [Required("uri")]) == Ok(map["uri" := Text("blobyard://w/p/o")]) by {
      assert [Required("uri")][1..] == [];
    }
  }

  lemma OpenOpens(host: Host)
    ensures Opens(DeletingHost(host), "open") && Asks(DeletingHost(host), "open").None?
  {
    hide Parse, ResourceCall;
  }

  lemma DeleteAsks(host: Host)
    ensures Asks(DeletingHost(host), "delete") == Some(DELETE_CALL)
  {
    hide Parse, ResourceCall;
    assert "delete" != "open";
    DeletionParses();
  }

  /** The exception is real: with every backend, an object that the catalogue calls destructive to delete
      is deleted by a call that carries no `confirm`. */
  lemma UnconfirmedDeletion(host: Host)
    ensures Destructive("delete_object") == Some(Main) && "confirm" !in DELETE_ARGUMENTS
    ensures After(DeletingHost(host), ["open", "delete"]).calls == [DELETE_CALL]
  {
    hide Opens, Asks, After;
    var h := DeletingHost(host);
    OpenOpens(host);
    DeleteAsks(host);
    TwoLines(h, "open", "delete");
  }

  /** An opening line and one that asks for a call make exactly that call. */
  lemma TwoLines(host: Host, opening: string, asking: string)
    requires Opens(host, opening) && Asks(host, opening).None? && Asks(host, asking).Some?
    ensures After(host, [opening, asking]).calls == [Asks(host, asking).value]
  {
    hide Opens, Asks, After;
    CallsExactly(host, [opening, asking]);
    assert [opening, asking][..1] == [opening] && [opening][..0] == [];
    assert Admitted(host, [opening]) == [];
    assert Opens(host, [opening][0]);
  }

  // ----- replies

  /** A version, this identifier, and either a result or an error with a code and a message. */
  predicate Envelope(reply: Value, id: Value)
  {
    && reply.Object? && Get(reply.fields, "jsonrpc") == Some(String("2.0")) && Get(reply.fields, "id") == Some(id)
    && (reply.fields.Keys == {"jsonrpc", "id", "result"} ||
        (reply.fields.Keys == {"jsonrpc", "id", "error"} && IsErrorBody(reply.fields["error"])))
  }

  /** A response as section 5 of the JSON-RPC 2.0 specification has it: its identifier is a string, a
      number or null. */
  predicate IsResponse(reply: Value, id: Value)
  {
    Envelope(reply, id) && (id.String? || id.Number? || id.Null?)
  }

  /** An object whose version or method is wrong, with an identifier no request may have. */
  predicate IllegallyIdentified(host: Host, line: string)
  {
    var message := Message(host, line);
    && message.Some? && "id" in message.value && !Versioned(message.value)
    && (message.value["id"].Bool? || message.value["id"].Array? || message.value["id"].Object?)
  }

  predicate IsErrorBody(body: Value)
  {
    && body.Object? && {"code", "message"} <= body.fields.Keys <= {"code", "message", "data"}
    && body.fields["code"].Number? && body.fields["message"].String?
  }

  /** The identifier a reply carries: that of the request, or null when the line has none the server takes. */
  function ReplyId(host: Host, line: string): Value
  {
    var message := Message(host, line);
    if message.None? || "id" !in message.value then Null
    else
      var id := message.value["id"];
      if Versioned(message.value) && !id.String? && !id.Number? then Null else id
  }

  lemma BuildersRespond(id: Value, result: Value, code: int, message: string, data: Option<Value>)
    ensures Envelope(Success(id, result), id) && Envelope(Error(id, code, message, data), id)
  {
    var body := ErrorBody(code, message, data);
    assert IsErrorBody(body);
    assert Success(id, result).fields.Keys == {"jsonrpc", "id", "result"};
    assert Error(id, code, message, data).fields.Keys == {"jsonrpc", "id", "error"};
  }

  lemma AllBuildersRespond(id: Value)
    ensures forall result :: Envelope(Success(id, result), id)
    ensures forall code, message, data :: Envelope(Error(id, code, message, data), id)
  {
    hide Envelope, Success, Error;
    forall result ensures Envelope(Success(id, result), id) { BuildersRespond(id, result, 0, "", None); }
    forall code, message, data ensures Envelope(Error(id, code, message, data), id) {
      BuildersRespond(id, Null, code, message, data);
    }
  }

  /** Carrying out the action answers the request with this identifier. */
  predicate Addresses(action: Action, id: Value)
  {
    match action
    case Silent => false
    case Answer(reply) => Envelope(reply, id)
    case Start(reply) => Envelope(reply, id)
    case Invoke(own, _, _) => own == id
  }

  lemma PromptResponds(host: Host, id: Value, params: Option<Value>)
    ensures Envelope(PromptReply(host, id, params), id)
  {
    hide Envelope, Success, Error;
    AllBuildersRespond(id);
  }

  lemma SubactionsAddress(host: Host, initialized: bool, id: Value, params: Option<Value>)
    ensures Addresses(ToolAction(id, params), id) && Addresses(ResourceAction(id, params), id)
    ensures Addresses(StartAction(host, initialized, id, params), id)
  {
    hide Envelope, Success, Error, Parse, ResourceCall;
    AllBuildersRespond(id);
  }

  lemma DispatchAddresses(host: Host, initialized: bool, id: Value, name: string, params: Option<Value>)
    ensures Addresses(Dispatch(host, initialized, id, name, params), id)
  {
    hide Envelope, Success, Error, ToolAction, ResourceAction, StartAction, PromptReply;
    AllBuildersRespond(id);
    PromptResponds(host, id, params);
    SubactionsAddress(host, initialized, id, params);
  }

  lemma PerformResponds(host: Host, st: State, action: Action, id: Value)
    requires Addresses(action, id)
    ensures Perform(host, st, action).1.Some? && Envelope(Perform(host, st, action).1.value, id)
  {
    hide Envelope, Success, Error, Sanitized, IssuedFor, ToolResult, ResourceResult;
    AllBuildersRespond(id);
  }

  /** Each line that is not a notification gets exactly one reply, addressed to it; a notification gets
      none and changes nothing. The reply is a JSON-RPC response exactly unless the line is an ill-formed
      object with an illegal identifier, which is echoed. */
  lemma ReplyDiscipline(host: Host, st: State, line: string)
    ensures Notification(host, line) ==> Step(host, st, line) == (st, None)
    ensures !Notification(host, line) ==>
              var reply := Step(host, st, line).1;
              && reply.Some? && Envelope(reply.value, ReplyId(host, line))
              && (IsResponse(reply.value, ReplyId(host, line)) <==> !IllegallyIdentified(host, line))
  {
    hide Envelope, Success, Error, Dispatch;
    var message := Message(host, line);
    AllBuildersRespond(ReplyId(host, line));
    if message.Some? && "id" in message.value && ValidId(message.value["id"]) && WellFormed(message.value) {
      var fields := message.value;
      DispatchAddresses(host, st.initialized, fields["id"], fields["method"].text, Get(fields, "params"));
      PerformResponds(host, st, Classify(host, st.initialized, line), fields["id"]);
    }
  }

  /** Any host on which every line decodes to an object with nothing but an empty array as identifier. */
  function ArrayIdHost(host: Host): Host
  {
    host.(decode := (line: string) => Ok(Object(map["id" := Array([])])))
  }

  /** Such a line is answered with that array, which no response may carry. */
  lemma IllegalIdEchoed(host: Host, st: State, line: string)
    ensures var reply := Step(ArrayIdHost(host), st, line).1;
            && reply == Some(InvalidRequest(Array([])))
            && forall id :: !IsResponse(reply.value, id)
  {
    var h := ArrayIdHost(host);
    ReplyDiscipline(h, st, line);
    assert Step(h, st, line).1 == Some(InvalidRequest(Array([])));
    assert forall id | Envelope(InvalidRequest(Array([])), id) :: id == Array([]);
  }

  /** The lines of a run that call for an answer, in order. */
  ghost function Answerable(host: Host, lines: seq<string>): seq<string>
  {
    if lines == [] then []
    else
      var line := lines[|lines| - 1];
      Answerable(host, lines[..|lines| - 1]) + if Notification(host, line) then [] else [line]
  }

  /** The transcript of any run answers the answerable lines one for one, in order. */
  lemma {:induction false} TranscriptAnswers(host: Host, lines: seq<string>)
    ensures var asked, written := Answerable(host, lines), Transcript(host, lines);
            && |written| == |asked|
            && (forall k | 0 <= k < |asked| :: Envelope(written[k], ReplyId(host, asked[k])))
            && forall k | 0 <= k < |asked| ::
                 IsResponse(written[k], ReplyId(host, asked[k])) <==> !IllegallyIdentified(host, asked[k])
  {
    hide Envelope, IsResponse, IllegallyIdentified, Step, Notification, ReplyId;
    if lines != [] {
      var init, line := lines[..|lines| - 1], lines[|lines| - 1];
      LastLine(lines);
      TranscriptAnswers(host, init);
      AfterStep(host, init, line);
      ReplyDiscipline(host, After(host, init), line);
    }
  }

  // ----- redaction of every output

  function FieldOf(value: Value, key: string): Value
  {
    if value.Object? && key in value.fields then value.fields[key] else Null
  }

  function FirstOf(value: Value): Value
  {
    if value.Array? && value.items != [] then value.items[0] else Null
  }

  /** The reply shows this output, as structured data and as its rendering, and says whether it failed. */
  predicate ShowsTool(host: Host, reply: Value, output: Value, failed: bool)
  {
    var result := FieldOf(reply, "result");
    && FieldOf(FieldOf(result, "structuredContent"), "data") == output
    && FieldOf(FirstOf(FieldOf(result, "content")), "text") == String(host.render(output))
    && FieldOf(result, "isError") == Bool(failed)
  }

  predicate ShowsResource(host: Host, reply: Value, output: Value)
  {
    FieldOf(FirstOf(FieldOf(FieldOf(reply, "result"), "contents")), "text") == String(host.render(output))
  }

  lemma ToolReplyShows(host: Host, id: Value, output: Value, failed: bool)
    ensures ShowsTool(host, Success(id, ToolResult(host, output, failed)), output, failed)
  {
    assert Success(id, ToolResult(host, output, failed)).fields["result"] == ToolResult(host, output, failed);
  }

  lemma ResourceReplyShows(host: Host, id: Value, uri: string, output: Value)
    ensures ShowsResource(host, Success(id, ResourceResult(host, uri, output)), output)
  {
    assert Success(id, ResourceResult(host, uri, output)).fields["result"] == ResourceResult(host, uri, output);
  }

  lemma ErrorReplyShows(id: Value, code: int, message: string, data: Value)
    ensures FieldOf(FieldOf(Error(id, code, message, Some(data)), "error"), "data") == data
  {
    assert Error(id, code, message, Some(data)).fields["error"] == ErrorBody(code, message, Some(data));
  }

  /** Redacting again changes nothing. */
  predicate Redacted(value: Value, issued: Capability) { Sanitized(value, issued, true) == value }

  /** Whatever the backend answers, what its caller is shown is redacted already, as data and as text: for
      what the call issued if it succeeded, for nothing if it failed or was a resource read. */
  lemma OutputRedacted(host: Host, st: State, line: string)
    ensures var action, reply := Classify(host, st.initialized, line), Step(host, st, line).1;
            action.Invoke? ==>
              && reply.Some?
              && match (action.origin, host.answer(st.calls, action.call))
                 case (FromTool, Ok(output)) =>
                   var shown := Sanitized(output, IssuedFor(action.call), true);
                   Redacted(shown, IssuedFor(action.call)) && ShowsTool(host, reply.value, shown, false)
                 case (FromTool, Err(error)) =>
                   var shown := Sanitized(ErrorValue(error), NoCapability, true);
                   Redacted(shown, NoCapability) && ShowsTool(host, reply.value, shown, true)
                 case (FromResource(_), Ok(output)) =>
                   var shown := Sanitized(output, NoCapability, true);
                   Redacted(shown, NoCapability) && ShowsResource(host, reply.value, shown)
                 case (FromResource(_), Err(error)) =>
                   var shown := Sanitized(ErrorValue(error), NoCapability, true);
                   Redacted(shown, NoCapability) && FieldOf(FieldOf(reply.value, "error"), "data") == shown
  {
    hide Classify, Sanitized, ToolResult, ResourceResult, Success, Error, ShowsTool, ShowsResource, FieldOf, IssuedFor;
    var action := Classify(host, st.initialized, line);
    if action.Invoke? {
      var issued := IssuedFor(action.call);
      match (action.origin, host.answer(st.calls, action.call)) {
        case (FromTool, Ok(output)) =>
          SanitizeTheorems.Idempotent(output, issued, true);
          ToolReplyShows(host, action.id, Sanitized(output, issued, true), false);
        case (FromTool, Err(error)) =>
          SanitizeTheorems.Idempotent(ErrorValue(error), NoCapability, true);
          ToolReplyShows(host, action.id, Sanitized(ErrorValue(error), NoCapability, true), true);
        case (FromResource(uri), Ok(output)) =>
          SanitizeTheorems.Idempotent(output, NoCapability, true);
          ResourceReplyShows(host, action.id, uri, Sanitized(output, NoCapability, true));
        case (FromResource(_), Err(error)) =>
          var data := Sanitized(ErrorValue(error), NoCapability, true);
          SanitizeTheorems.Idempotent(ErrorValue(error), NoCapability, true);
          ErrorReplyShows(action.id, -32603, "Resource backend error", data);
      }
    }
  }

  // ----- hidden data never reaches the transcript

  /** The two backend answers differ at most in data that redaction hides from this call. */
  ghost predicate RepliesAgree(call: ToolCall, a: BackendReply, b: BackendReply)
  {
    match (a, b)
    case (Ok(v), Ok(w)) => Agree(v, w, IssuedFor(call), true)
    case (Err(e), Err(f)) => Agree(ErrorValue(e), ErrorValue(f), NoCapability, true)
    case _ => false
  }

  ghost predicate BackendsAgree(a: Host, b: Host)
  {
    && forall calls, call :: RepliesAgree(call, a.answer(calls, call), b.answer(calls, call))
  }

  /** The same host with another backend. */
  function WithBackend(host: Host, answer: (seq<ToolCall>, ToolCall) -> BackendReply): Host
  {
    host.(answer := answer)
  }

  lemma ResourceIssuesNothing(uri: string)
    requires ResourceCall(uri).Some?
    ensures IssuedFor(ResourceCall(uri).value) == NoCapability
  {
  }

  lemma FinishAgrees(
      host: Host, other: Host, id: Value, call: ToolCall, origin: Origin, a: BackendReply, b: BackendReply)
    requires other == WithBackend(host, other.answer) && RepliesAgree(call, a, b)
    requires origin.FromResource? ==> IssuedFor(call) == NoCapability
    ensures Finish(host, id, call, origin, a) == Finish(other, id, call, origin, b)
  {
    hide Agree, Sanitized, IssuedFor;
    match (a, b) {
      case (Ok(v), Ok(w)) => Noninterference(v, w, IssuedFor(call), true);
      case (Err(e), Err(f)) => Noninterference(ErrorValue(e), ErrorValue(f), NoCapability, true);
    }
  }

  lemma ClassifyIgnoresBackend(
      host: Host, answer: (seq<ToolCall>, ToolCall) -> BackendReply, initialized: bool, line: string)
    ensures Classify(WithBackend(host, answer), initialized, line) == Classify(host, initialized, line)
  {
    hide Parse, ResourceCall;
  }

  lemma InvokedResource(host: Host, initialized: bool, line: string)
    ensures var action := Classify(host, initialized, line);
            action.Invoke? && action.origin.FromResource? ==> IssuedFor(action.call) == NoCapability
  {
    hide Parse, ResourceCall, IssuedFor;
    var action := Classify(host, initialized, line);
    if action.Invoke? && action.origin.FromResource? {
      ResourceIssuesNothing(action.origin.uri);
    }
  }

  lemma StepAgrees(host: Host, answer: (seq<ToolCall>, ToolCall) -> BackendReply, st: State, line: string)
    requires BackendsAgree(host, WithBackend(host, answer))
    ensures Step(WithBackend(host, answer), st, line) == Step(host, st, line)
  {
    hide Classify, RepliesAgree, IssuedFor, Finish;
    var other := WithBackend(host, answer);
    ClassifyIgnoresBackend(host, answer, st.initialized, line);
    InvokedResource(host, st.initialized, line);
    match Classify(host, st.initialized, line) {
      case Invoke(id, call, origin) =>
        var a, b := host.answer(st.calls, call), other.answer(st.calls, call);
        assert RepliesAgree(call, a, b);
        FinishAgrees(host, other, id, call, origin, a, b);
      case _ =>
    }
  }

  /** Two backends that differ only in hidden data are indistinguishable: for every run of lines the
      whole transcript and every backend call are the same. */
  lemma {:induction false} TranscriptNoninterference(
      host: Host, answer: (seq<ToolCall>, ToolCall) -> BackendReply, lines: seq<string>)
    requires BackendsAgree(host, WithBackend(host, answer))
    ensures Transcript(WithBackend(host, answer), lines) == Transcript(host, lines)
    ensures After(WithBackend(host, answer), lines) == After(host, lines)
  {
    hide Step, BackendsAgree;
    if lines != [] {
      var init, line := lines[..|lines| - 1], lines[|lines| - 1];
      LastLine(lines);
      TranscriptNoninterference(host, answer, init);
      StepAgrees(host, answer, After(host, init), line);
      AfterStep(host, init, line);
      AfterStep(WithBackend(host, answer), init, line);
    }
  }
}
