/** The MCP request processor: what each line means, and the stateful server that carries it out. */
module Server {
  import opened Text
  import opened Json
  import opened Sanitize
  import opened ToolCalls

  const PROTOCOL_VERSION := "2025-11-25"

  const SUPPORTED_VERSIONS: seq<string> := [PROTOCOL_VERSION, "2025-06-18", "2025-03-26", "2024-11-05"]

  datatype BackendError = BackendError(code: string, message: string)

  type BackendReply = Result<Value, BackendError>

  /** Everything outside the processor: JSON text, the backend (its answer may depend on all earlier
      calls) and the static documents it serves. */
  datatype Host = Host(
    decode: string -> Result<Value, string>,
    render: Value -> string,
    answer: (seq<ToolCall>, ToolCall) -> BackendReply,
    introduction: map<string, Value>,
    tools: Value,
    resources: Value,
    resourceTemplates: Value,
    prompts: Value,
    prompt: (string, Option<string>) -> Option<Value>)

  // ----- responses

  function Success(id: Value, result: Value): Value
  {
    Object(map["jsonrpc" := String("2.0"), "id" := id, "result" := result])
  }

  function ErrorBody(code: int, message: string, data: Option<Value>): Value
  {
    var body := map["code" := Number(Whole(code)), "message" := String(message)];
    Object(if data.Some? then body["data" := data.value] else body)
  }

  function Error(id: Value, code: int, message: string, data: Option<Value>): Value
  {
    Object(map["jsonrpc" := String("2.0"), "id" := id, "error" := ErrorBody(code, message, data)])
  }

  function Detail(text: string): Option<Value>
  {
    Some(Object(map["detail" := String(text)]))
  }

  function InvalidRequest(id: Value): Value { Error(id, -32600, "Invalid Request", None) }

  function ToolResult(host: Host, output: Value, failed: bool): Value
  {
    Object(map[
      "content" := Array([Object(map["type" := String("text"), "text" := String(host.render(output))])]),
      "structuredContent" := Object(map["data" := output]),
      "isError" := Bool(failed)])
  }

  function ResourceResult(host: Host, uri: string, output: Value): Value
  {
    Object(map["contents" := Array([Object(map[
      "uri" := String(uri), "mimeType" := String("application/json"), "text" := String(host.render(output))])])])
  }

  function ErrorValue(error: BackendError): Value
  {
    Object(map["code" := String(error.code), "message" := String(error.message)])
  }

  /** `IssuedCapability::for_call`. */
  function IssuedFor(call: ToolCall): Capability
  {
    match call.tool
    case "create_share" => Share
    case "create_preview" => Preview
    case "create_inbox" => Inbox
    case "create_yard_guest_invite" => GuestInvitation
    case _ => NoCapability
  }

  // ----- what a line asks for

  datatype Origin = FromTool | FromResource(uri: string)

  datatype Action =
    | Silent
    | Answer(reply: Value)
    | Start(reply: Value)
    | Invoke(id: Value, call: ToolCall, origin: Origin)

  function RequestedVersion(params: Option<Value>): Option<string>
  {
    var fields := AsObject(params);
    if fields.None? then None else AsString(Get(fields.value, "protocolVersion"))
  }

  function Negotiate(requested: string): (version: string)
    ensures version in SUPPORTED_VERSIONS
    ensures requested in SUPPORTED_VERSIONS ==> version == requested
  {
    assert PROTOCOL_VERSION == SUPPORTED_VERSIONS[0];
    if requested in SUPPORTED_VERSIONS then requested else PROTOCOL_VERSION
  }

  function Introduction(host: Host, requested: string): Value
  {
    Object(host.introduction["protocolVersion" := String(Negotiate(requested))])
  }

  const NO_SCOPE := Scope(None, None)

  function ResourceCall(uri: string): Option<ToolCall>
  {
    if uri == "blobyard://session/identity" then Some(ToolCall("whoami", NO_SCOPE, map[]))
    else match StripPrefix(uri, "blobyard://projects/")
      case None => None
      case Some(path) =>
        match SplitOnce(path, '/')
        case None => None
        case Some((project, resource)) =>
          var scope := Scope(None, Some(project));
          if project == "" then None
          else if resource == "objects" then Some(ToolCall("list_objects", scope, map["versions" := Flag(false)]))
          else if resource == "retention" then Some(ToolCall("get_retention", scope, map[]))
          else None
  }

  function ToolAction(id: Value, params: Option<Value>): Action
  {
    match AsObject(params)
    case None => Answer(Error(id, -32602, "Invalid params", Detail("params must be an object")))
    case Some(fields) =>
      match AsString(Get(fields, "name"))
      case None => Answer(Error(id, -32602, "Invalid params", Detail("tool name is required")))
      case Some(name) =>
        match Parse(name, ArgumentsOf(fields))
        case Err(detail) => Answer(Error(id, -32602, "Invalid params", Detail(detail)))
        case Ok(call) => Invoke(id, call, FromTool)
  }

  function ArgumentsOf(fields: map<string, Value>): Value
  {
    if "arguments" in fields then fields["arguments"] else Object(map[])
  }

  function ResourceAction(id: Value, params: Option<Value>): Action
  {
    var fields := AsObject(params);
    var uri := if fields.None? then None else AsString(Get(fields.value, "uri"));
    if uri.None? then Answer(Error(id, -32602, "Invalid params", None))
    else match ResourceCall(uri.value)
      case None => Answer(Error(id, -32002, "Resource not found", Some(Object(map["uri" := String(uri.value)]))))
      case Some(call) => Invoke(id, call, FromResource(uri.value))
  }

  function PromptReply(host: Host, id: Value, params: Option<Value>): Value
  {
    match AsObject(params)
    case None => Error(id, -32602, "Invalid params", None)
    case Some(fields) =>
      match AsString(Get(fields, "name"))
      case None => Error(id, -32602, "Invalid prompt name", None)
      case Some(name) =>
        var arguments := AsObject(Get(fields, "arguments"));
        var project := if arguments.None? then None else AsString(Get(arguments.value, "project"));
        match host.prompt(name, project)
        case Some(prompt) => Success(id, prompt)
        case None => Error(id, -32602, "Invalid prompt name", None)
  }

  function StartAction(host: Host, initialized: bool, id: Value, params: Option<Value>): Action
  {
    if initialized then Answer(Error(id, -32600, "Server already initialized", None))
    else match RequestedVersion(params)
      case None => Answer(Error(id, -32602, "Invalid params", Detail("protocolVersion is required")))
      case Some(requested) => Start(Success(id, Introduction(host, requested)))
  }

  function Dispatch(host: Host, initialized: bool, id: Value, name: string, params: Option<Value>): Action
  {
    if name == "initialize" then StartAction(host, initialized, id, params)
    else if name == "ping" then Answer(Success(id, Object(map[])))
    else if !initialized then Answer(Error(id, -32600, "Server not initialized", None))
    else match name
      case "tools/list" => Answer(Success(id, Object(map["tools" := host.tools])))
      case "tools/call" => ToolAction(id, params)
      case "resources/list" => Answer(Success(id, host.resources))
      case "resources/templates/list" => Answer(Success(id, host.resourceTemplates))
      case "resources/read" => ResourceAction(id, params)
      case "prompts/list" => Answer(Success(id, host.prompts))
      case "prompts/get" => Answer(PromptReply(host, id, params))
      case _ => Answer(Error(id, -32601, "Method not found", Some(Object(map["method" := String(name)]))))
  }

  predicate WellFormed(fields: map<string, Value>)
  {
    Get(fields, "jsonrpc") == Some(String("2.0")) && AsString(Get(fields, "method")).Some?
  }

  predicate ValidId(id: Value) { id.String? || id.Number? }

  function ClassifyRequest(host: Host, initialized: bool, fields: map<string, Value>): Action
  {
    if "id" !in fields then Silent
    else if !WellFormed(fields) then Answer(InvalidRequest(fields["id"]))
    else if !ValidId(fields["id"]) then Answer(InvalidRequest(Null))
    else Dispatch(host, initialized, fields["id"], fields["method"].text, Get(fields, "params"))
  }

  function Classify(host: Host, initialized: bool, line: string): Action
  {
    match host.decode(line)
    case Err(detail) => Answer(Error(Null, -32700, "Parse error", Detail(detail)))
    case Ok(message) =>
      if message.Object? then ClassifyRequest(host, initialized, message.fields) else Answer(InvalidRequest(Null))
  }

  // ----- carrying it out

  /** The connection: whether it is initialised, and every call the backend has received. */
  datatype State = State(initialized: bool, calls: seq<ToolCall>)

  function Finish(host: Host, id: Value, call: ToolCall, origin: Origin, reply: BackendReply): Value
  {
    match (origin, reply)
    case (FromTool, Ok(output)) => Success(id, ToolResult(host, Sanitized(output, IssuedFor(call), true), false))
    case (FromTool, Err(error)) => Success(id, ToolResult(host, Sanitized(ErrorValue(error), NoCapability, true), true))
    case (FromResource(uri), Ok(output)) =>
      Success(id, ResourceResult(host, uri, Sanitized(output, NoCapability, true)))
    case (FromResource(_), Err(error)) =>
      Error(id, -32603, "Resource backend error", Some(Sanitized(ErrorValue(error), NoCapability, true)))
  }

  function Perform(host: Host, st: State, action: Action): (State, Option<Value>)
  {
    match action
    case Silent => (st, None)
    case Answer(reply) => (st, Some(reply))
    case Start(reply) => (st.(initialized := true), Some(reply))
    case Invoke(id, call, origin) =>
      (st.(calls := st.calls + [call]), Some(Finish(host, id, call, origin, host.answer(st.calls, call))))
  }

  function Step(host: Host, st: State, line: string): (State, Option<Value>)
  {
    Perform(host, st, Classify(host, st.initialized, line))
  }

  class McpServer {
    const host: Host
    var initialized: bool
    /** The calls the backend has received, oldest first. */
    var calls: seq<ToolCall>

    function Now(): State
      reads this
    {
      State(initialized, calls)
    }

    constructor (host: Host)
      ensures this.host == host && Now() == State(false, [])
    {
      this.host := host;
      initialized, calls := false, [];
    }

    method ProcessLine(line: string) returns (reply: Option<Value>)
      modifies this
      ensures (Now(), reply) == Step(host, old(Now()), line)
    {
      hide Dispatch;
      match host.decode(line) {
        case Err(detail) =>
          reply := Some(Error(Null, -32700, "Parse error", Detail(detail)));
        case Ok(message) =>
          if !message.Object? {
            reply := Some(InvalidRequest(Null));
          } else {
            reply := ProcessRequest(message.fields);
          }
      }
    }

    method ProcessRequest(request: map<string, Value>) returns (reply: Option<Value>)
      modifies this
      ensures (Now(), reply) == Perform(host, old(Now()), ClassifyRequest(host, old(initialized), request))
    {
      hide Dispatch;
      var id := Get(request, "id");
      if Get(request, "jsonrpc") != Some(String("2.0")) {
        return if id.Some? then Some(InvalidRequest(id.value)) else None;
      }
      var name := AsString(Get(request, "method"));
      if name.None? {
        return if id.Some? then Some(InvalidRequest(id.value)) else None;
      }
      if id.None? {
        return None;
      }
      if !ValidId(id.value) {
        return Some(InvalidRequest(Null));
      }
      var answer := Request(id.value, name.value, Get(request, "params"));
      return Some(answer);
    }

    method Request(id: Value, name: string, params: Option<Value>) returns (reply: Value)
      modifies this
      ensures (Now(), Some(reply)) == Perform(host, old(Now()), Dispatch(host, old(initialized), id, name, params))
    {
      hide ToolAction, ResourceAction, StartAction;
      match name {
        case "initialize" => reply := Initialize(id, params);
        case "ping" => reply := Success(id, Object(map[]));
        case _ =>
          if !initialized {
            reply := Error(id, -32600, "Server not initialized", None);
          } else {
            match name {
              case "tools/list" => reply := Success(id, Object(map["tools" := host.tools]));
              case "tools/call" => reply := CallTool(id, params);
              case "resources/list" => reply := Success(id, host.resources);
              case "resources/templates/list" => reply := Success(id, host.resourceTemplates);
              case "resources/read" => reply := ReadResource(id, params);
              case "prompts/list" => reply := Success(id, host.prompts);
              case "prompts/get" => reply := PromptReply(host, id, params);
              case _ => reply := Error(id, -32601, "Method not found", Some(Object(map["method" := String(name)])));
            }
          }
      }
    }

    method Initialize(id: Value, params: Option<Value>) returns (reply: Value)
      modifies this
      ensures (Now(), Some(reply)) == Perform(host, old(Now()), StartAction(host, old(initialized), id, params))
    {
      if initialized {
        return Error(id, -32600, "Server already initialized", None);
      }
      var requested := RequestedVersion(params);
      if requested.None? {
        return Error(id, -32602, "Invalid params", Detail("protocolVersion is required"));
      }
      initialized := true;
      return Success(id, Introduction(host, requested.value));
    }

    /** One call to the backend. */
    method Backend(call: ToolCall) returns (reply: BackendReply)
      modifies this
      ensures initialized == old(initialized) && calls == old(calls) + [call]
      ensures reply == host.answer(old(calls), call)
    {
      reply := host.answer(calls, call);
      calls := calls + [call];
    }

    method CallTool(id: Value, params: Option<Value>) returns (reply: Value)
      modifies this
      ensures (Now(), Some(reply)) == Perform(host, old(Now()), ToolAction(id, params))
    {
      hide Parse, Sanitized, IssuedFor, ToolResult;
      var fields := AsObject(params);
      if fields.None? {
        return Error(id, -32602, "Invalid params", Detail("params must be an object"));
      }
      var name := AsString(Get(fields.value, "name"));
      if name.None? {
        return Error(id, -32602, "Invalid params", Detail("tool name is required"));
      }
      var call := Parse(name.value, ArgumentsOf(fields.value));
      if call.Err? {
        return Error(id, -32602, "Invalid params", Detail(call.error));
      }
      var answer := Backend(call.value);
      match answer {
        case Ok(output) =>
          var clean := SanitizeValue(output, IssuedFor(call.value), true);
          return Success(id, ToolResult(host, clean, false));
        case Err(error) =>
          var clean := SanitizeValue(ErrorValue(error), NoCapability, true);
          return Success(id, ToolResult(host, clean, true));
      }
    }

    method ReadResource(id: Value, params: Option<Value>) returns (reply: Value)
      modifies this
      ensures (Now(), Some(reply)) == Perform(host, old(Now()), ResourceAction(id, params))
    {
      hide Sanitized, ResourceResult, ResourceCall;
      var fields := AsObject(params);
      var uri := if fields.None? then None else AsString(Get(fields.value, "uri"));
      if uri.None? {
        return Error(id, -32602, "Invalid params", None);
      }
      var call := ResourceCall(uri.value);
      if call.None? {
        return Error(id, -32002, "Resource not found", Some(Object(map["uri" := String(uri.value)])));
      }
      var answer := Backend(call.value);
      match answer {
        case Ok(output) =>
          var clean := SanitizeValue(output, NoCapability, true);
          return Success(id, ResourceResult(host, uri.value, clean));
        case Err(error) =>
          var data := SanitizeValue(ErrorValue(error), NoCapability, true);
          return Error(id, -32603, "Resource backend error", Some(data));
      }
    }
  }

  // ----- whole connections

  /** The state after a run of lines on a fresh connection. */
  function After(host: Host, lines: seq<string>): State
  {
    if lines == [] then State(false, [])
    else Step(host, After(host, lines[..|lines| - 1]), lines[|lines| - 1]).0
  }

  /** What line `i` of a run is answered with. */
  function ReplyTo(host: Host, lines: seq<string>, i: nat): Option<Value>
    requires i < |lines|
  {
    Step(host, After(host, lines[..i]), lines[i]).1
  }

  /** Everything written during a run, in order. */
  function Transcript(host: Host, lines: seq<string>): seq<Value>
  {
    if lines == [] then []
    else
      var init := lines[..|lines| - 1];
      var reply := ReplyTo(host, lines, |lines| - 1);
      Transcript(host, init) + if reply.Some? then [reply.value] else []
  }

  /** `serve_stream` over lines that arrive and writes that succeed. */
  method ServeStream(host: Host, lines: seq<string>) returns (written: seq<Value>)
    ensures written == Transcript(host, lines)
  {
    hide Step;
    var server := new McpServer(host);
    written := [];
    for k := 0 to |lines|
      invariant server.host == host
      invariant server.Now() == After(host, lines[..k]) && written == Transcript(host, lines[..k])
    {
      var reply := server.ProcessLine(lines[k]);
      assert lines[..k + 1][..k] == lines[..k] && lines[..k + 1][k] == lines[k];
      if reply.Some? {
        written := written + [reply.value];
      }
    }
    assert lines[..|lines|] == lines;
  }
}
