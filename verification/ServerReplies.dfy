/** What every line is answered with, told by the fields of the request and the fields of the reply. */
module ServerReplies {
  import opened Text
  import opened Json
  import opened Sanitize
  import opened SanitizeKeys
  import SanitizeTheorems
  import opened ToolCalls
  import opened Server
  import opened ServerRuns

  // ----- the shape of replies

  ghost predicate Succeeds(reply: Value, id: Value, result: Value)
  {
    reply == Object(map["jsonrpc" := String("2.0"), "id" := id, "result" := result])
  }

  ghost predicate Fails(reply: Value, id: Value, code: int, message: string, data: Option<Value>)
  {
    var body := map["code" := Number(Whole(code)), "message" := String(message)];
    var error := match data case None => body case Some(value) => body["data" := value];
    reply == Object(map["jsonrpc" := String("2.0"), "id" := id, "error" := Object(error)])
  }

  lemma ShapesExact(id: Value, result: Value, code: int, message: string, data: Option<Value>)
    ensures Succeeds(Success(id, result), id, result) && Fails(Error(id, code, message, data), id, code, message, data)
  {
  }

  lemma Shapes(id: Value)
    ensures forall result :: Succeeds(Success(id, result), id, result)
    ensures forall code, message, data :: Fails(Error(id, code, message, data), id, code, message, data)
  {
    hide Succeeds, Fails, Success, Error;
    forall result ensures Succeeds(Success(id, result), id, result) { ShapesExact(id, result, 0, "", None); }
    forall code, message, data ensures Fails(Error(id, code, message, data), id, code, message, data) {
      ShapesExact(id, Null, code, message, data);
    }
  }

  /** One field of an object. */
  function Naming(key: string, text: string): Option<Value>
  {
    Some(Object(map[key := String(text)]))
  }

  /** The reply to a line in a state, and null when there is none. */
  function Reply(host: Host, st: State, line: string): Value
  {
    var reply := Step(host, st, line).1;
    if reply.Some? then reply.value else Null
  }

  function IdOf(host: Host, line: string): Value
  {
    var message := Message(host, line);
    if message.Some? && "id" in message.value then message.value["id"] else Null
  }

  // ----- lines that are not requests

  /** Text that is not JSON is a parse error, JSON that is not an object an invalid request; so is an
      object of another version or without a method, under its own identifier, and a request whose
      identifier is neither a string nor a number, under none. */
  lemma MalformedReply(host: Host, st: State, line: string)
    ensures match host.decode(line)
            case Err(detail) => Fails(Reply(host, st, line), Null, -32700, "Parse error", Naming("detail", detail))
            case Ok(Object(fields)) =>
              "id" in fields ==>
                && (!Versioned(fields) ==> Fails(Reply(host, st, line), fields["id"], -32600, "Invalid Request", None))
                && (Versioned(fields) && !fields["id"].String? && !fields["id"].Number? ==>
                      Fails(Reply(host, st, line), Null, -32600, "Invalid Request", None))
            case Ok(_) => Fails(Reply(host, st, line), Null, -32600, "Invalid Request", None)
  {
    hide Fails, Error, Dispatch;
    Shapes(Null);
    match host.decode(line) {
      case Ok(Object(fields)) => if "id" in fields { Shapes(fields["id"]); }
      case _ =>
    }
  }

  // ----- methods

  lemma Dispatched(host: Host, st: State, line: string, name: string)
    requires Requests(host, line, name)
    ensures Step(host, st, line) ==
            Perform(host, st, Dispatch(host, st.initialized, IdOf(host, line), name, ParamsIn(host, line)))
  {
    hide Dispatch, Perform;
  }

  predicate KnownMethod(name: string)
  {
    || name == "initialize" || name == "ping" || name == "tools/list" || name == "tools/call"
    || name == "resources/list" || name == "resources/templates/list" || name == "resources/read"
    || name == "prompts/list" || name == "prompts/get"
  }

  /** A ping is answered in every state; before initialisation nothing else is served but `initialize`;
      after it, an unknown method is named in the error. */
  lemma MethodReply(host: Host, st: State, line: string, name: string)
    requires Requests(host, line, name)
    ensures var reply, id := Reply(host, st, line), IdOf(host, line);
            && (name == "ping" ==> Succeeds(reply, id, Object(map[])))
            && (name != "ping" && name != "initialize" && !st.initialized ==>
                  Fails(reply, id, -32600, "Server not initialized", None))
            && (st.initialized && !KnownMethod(name) ==>
                  Fails(reply, id, -32601, "Method not found", Naming("method", name)))
  {
    hide Succeeds, Fails, Success, Error, Step, ToolAction, ResourceAction, StartAction, PromptReply, Requests,
      ParamsIn, IdOf;
    Shapes(IdOf(host, line));
    Dispatched(host, st, line, name);
  }

  /** The four listings serve the documents of the host. */
  lemma ListingReply(host: Host, st: State, line: string, name: string)
    requires Requests(host, line, name) && st.initialized
    ensures var reply, id := Reply(host, st, line), IdOf(host, line);
            && (name == "tools/list" ==> Succeeds(reply, id, Object(map["tools" := host.tools])))
            && (name == "resources/list" ==> Succeeds(reply, id, host.resources))
            && (name == "resources/templates/list" ==> Succeeds(reply, id, host.resourceTemplates))
            && (name == "prompts/list" ==> Succeeds(reply, id, host.prompts))
  {
    hide Succeeds, Fails, Success, Error, Step, ToolAction, ResourceAction, StartAction, PromptReply, Requests,
      ParamsIn, IdOf;
    Shapes(IdOf(host, line));
    Dispatched(host, st, line, name);
  }

  /** `initialize` without a version is refused on a fresh connection, and any `initialize` on an
      initialised one. */
  lemma UnopenedReply(host: Host, st: State, line: string)
    requires Requests(host, line, "initialize")
    ensures var reply, id := Reply(host, st, line), IdOf(host, line);
            && (st.initialized ==> Fails(reply, id, -32600, "Server already initialized", None))
            && (!st.initialized && TextIn(host, line, "protocolVersion").None? ==>
                  Fails(reply, id, -32602, "Invalid params", Naming("detail", "protocolVersion is required")))
  {
    hide Succeeds, Fails, Success, Error, Step, Requests, Introduction;
    Shapes(IdOf(host, line));
    Dispatched(host, st, line, "initialize");
  }

  lemma PromptDispatched(host: Host, id: Value, params: Option<Value>)
    ensures Dispatch(host, true, id, "prompts/get", params) == Answer(PromptReply(host, id, params))
  {
    hide PromptReply;
  }

  /** A prompt is served when the host has it, with the project the arguments name as text. */
  lemma PromptExact(host: Host, st: State, line: string)
    requires Requests(host, line, "prompts/get") && st.initialized
    ensures var reply, id, name := Reply(host, st, line), IdOf(host, line), TextIn(host, line, "name");
            && (!(exists fields :: ParamsIn(host, line) == Some(Object(fields))) ==>
                  Fails(reply, id, -32602, "Invalid params", None))
            && (forall fields | ParamsIn(host, line) == Some(Object(fields)) ::
                  if name.Some? && host.prompt(name.value, ProjectIn(fields)).Some?
                  then Succeeds(reply, id, host.prompt(name.value, ProjectIn(fields)).value)
                  else Fails(reply, id, -32602, "Invalid prompt name", None))
  {
    hide Succeeds, Fails, Success, Error, Step, Requests, IdOf, Dispatch;
    Shapes(IdOf(host, line));
    Dispatched(host, st, line, "prompts/get");
    PromptDispatched(host, IdOf(host, line), ParamsIn(host, line));
    var params := ParamsIn(host, line);
    assert params.Some? && params.value.Object? ==> params == Some(Object(params.value.fields));
  }

  function ProjectIn(fields: map<string, Value>): Option<string>
  {
    if "arguments" in fields && fields["arguments"].Object?
       && "project" in fields["arguments"].fields && fields["arguments"].fields["project"].String?
    then Some(fields["arguments"].fields["project"].text)
    else None
  }

  /** A tool request without object parameters, without a tool name or with arguments the tool refuses
      reaches no backend and says why. */
  lemma RefusedToolReply(host: Host, st: State, line: string)
    requires Requests(host, line, "tools/call") && st.initialized
    ensures var reply, id := Reply(host, st, line), IdOf(host, line);
            && (!(exists fields :: ParamsIn(host, line) == Some(Object(fields))) ==>
                  Fails(reply, id, -32602, "Invalid params", Naming("detail", "params must be an object")))
            && (forall fields | ParamsIn(host, line) == Some(Object(fields)) && TextIn(host, line, "name").None? ::
                  Fails(reply, id, -32602, "Invalid params", Naming("detail", "tool name is required")))
            && (forall name, arguments, detail | ToolRequest(host, line) == Some((name, arguments))
                                                 && Parse(name, arguments) == Err(detail) ::
                  Fails(reply, id, -32602, "Invalid params", Naming("detail", detail)))
  {
    hide Succeeds, Fails, Success, Error, Step, Requests, IdOf, Parse, Dispatch;
    Shapes(IdOf(host, line));
    Dispatched(host, st, line, "tools/call");
    DispatchFacts(host, true, IdOf(host, line), "tools/call", ParamsIn(host, line));
    var params := ParamsIn(host, line);
    assert params.Some? && params.value.Object? ==> params == Some(Object(params.value.fields));
  }

  /** A resource read without a URI, or with one that stands for no call, reaches no backend. */
  lemma RefusedReadReply(host: Host, st: State, line: string)
    requires Requests(host, line, "resources/read") && st.initialized
    ensures var reply, id, uri := Reply(host, st, line), IdOf(host, line), TextIn(host, line, "uri");
            && (uri.None? ==> Fails(reply, id, -32602, "Invalid params", None))
            && (uri.Some? && (forall call :: !ReadAs(uri.value, call)) ==>
                  Fails(reply, id, -32002, "Resource not found", Naming("uri", uri.value)))
  {
    hide Succeeds, Fails, Success, Error, Step, Requests, IdOf, ResourceCall, ReadAs, Dispatch;
    Shapes(IdOf(host, line));
    Dispatched(host, st, line, "resources/read");
    DispatchFacts(host, true, IdOf(host, line), "resources/read", ParamsIn(host, line));
    var uri := TextIn(host, line, "uri");
    if uri.Some? {
      forall call ensures ResourceCall(uri.value) == Some(call) <==> ReadAs(uri.value, call) {
        ResourceCallExact(uri.value, call);
      }
    }
  }

  // ----- what the caller of a tool is shown

  /** The link a tool has just issued when it succeeds. */
  function Issues(tool: string): Capability
  {
    if tool == "create_share" then Share
    else if tool == "create_preview" then Preview
    else if tool == "create_inbox" then Inbox
    else if tool == "create_yard_guest_invite" then GuestInvitation
    else NoCapability
  }

  lemma IssuesExact(call: ToolCall)
    ensures IssuedFor(call) == Issues(call.tool)
  {
  }

  /** The line is a tool request that parses to this call. */
  ghost predicate Calls(host: Host, line: string, call: ToolCall)
  {
    var request := ToolRequest(host, line);
    request.Some? && Parse(request.value.0, request.value.1) == Ok(call)
  }

  function ToolAnswer(host: Host, shown: Value, failed: bool): Value
  {
    Object(map[
      "content" := Array([Object(map["type" := String("text"), "text" := String(host.render(shown))])]),
      "structuredContent" := Object(map["data" := shown]),
      "isError" := Bool(failed)])
  }

  lemma ToolAnswerExact(host: Host, shown: Value, failed: bool)
    ensures ToolResult(host, shown, failed) == ToolAnswer(host, shown, failed)
  {
  }

  lemma CallPerformed(host: Host, st: State, line: string, call: ToolCall)
    requires st.initialized && Calls(host, line, call)
    ensures Step(host, st, line).1 ==
            Some(Finish(host, IdOf(host, line), call, FromTool, host.answer(st.calls, call)))
  {
    hide Step, Requests, IdOf, Parse, Dispatch, Finish;
    Dispatched(host, st, line, "tools/call");
    DispatchFacts(host, true, IdOf(host, line), "tools/call", ParamsIn(host, line));
  }

  /** The reply to a tool call: the sanitised output as data and as text when the backend answers, and the
      sanitised error, marked as one, when it does not. */
  lemma ToolReply(host: Host, st: State, line: string, call: ToolCall)
    requires st.initialized && Calls(host, line, call)
    ensures match host.answer(st.calls, call)
            case Ok(output) =>
              Succeeds(Reply(host, st, line), IdOf(host, line),
                       ToolAnswer(host, Sanitized(output, Issues(call.tool), true), false))
            case Err(error) =>
              var data := Object(map["code" := String(error.code), "message" := String(error.message)]);
              Succeeds(Reply(host, st, line), IdOf(host, line),
                       ToolAnswer(host, Sanitized(data, NoCapability, true), true))
  {
    hide Step, Calls, IdOf, Sanitized, ToolResult, ToolAnswer, Succeeds, Success, IssuedFor, Issues;
    CallPerformed(host, st, line, call);
    IssuesExact(call);
    Shapes(IdOf(host, line));
    match host.answer(st.calls, call) {
      case Ok(output) => ToolAnswerExact(host, Sanitized(output, IssuedFor(call), true), false);
      case Err(error) => ToolAnswerExact(host, Sanitized(ErrorValue(error), NoCapability, true), true);
    }
  }

  lemma ReadPerformed(host: Host, st: State, line: string, call: ToolCall)
    requires st.initialized && ReadBy(host, line, call)
    ensures Step(host, st, line).1 ==
            Some(Finish(host, IdOf(host, line), call, FromResource(ResourceRequest(host, line).value),
                        host.answer(st.calls, call)))
  {
    hide Step, Requests, IdOf, ResourceCall, Dispatch, Finish, ReadAs;
    ResourceCallExact(ResourceRequest(host, line).value, call);
    Dispatched(host, st, line, "resources/read");
    DispatchFacts(host, true, IdOf(host, line), "resources/read", ParamsIn(host, line));
  }

  /** The reply to a resource read: one JSON document under the URI that was asked for, or an error. */
  lemma ReadReply(host: Host, st: State, line: string, call: ToolCall)
    requires st.initialized && ReadBy(host, line, call)
    ensures match host.answer(st.calls, call)
            case Ok(output) =>
              var text := host.render(Sanitized(output, NoCapability, true));
              Succeeds(Reply(host, st, line), IdOf(host, line), Object(map["contents" := Array([Object(map[
                "uri" := String(ResourceRequest(host, line).value),
                "mimeType" := String("application/json"),
                "text" := String(text)])])]))
            case Err(error) =>
              var data := Object(map["code" := String(error.code), "message" := String(error.message)]);
              Fails(Reply(host, st, line), IdOf(host, line), -32603, "Resource backend error",
                    Some(Sanitized(data, NoCapability, true)))
  {
    hide Step, IdOf, Sanitized, Succeeds, Fails, Success, Error, ReadAs, Requests;
    ReadPerformed(host, st, line, call);
    Shapes(IdOf(host, line));
  }

  const DATA: seq<Selector> := [Field("result"), Field("structuredContent"), Field("data")]

  lemma DataOf(host: Host, reply: Value, id: Value, shown: Value, failed: bool)
    requires Succeeds(reply, id, ToolAnswer(host, shown, failed))
    ensures At(reply, DATA) == Some(shown)
  {
    var result := ToolAnswer(host, shown, failed);
    assert reply.fields["result"] == result;
    assert DATA[1..] == [Field("structuredContent"), Field("data")] && DATA[1..][1..] == [Field("data")];
    assert result.fields["structuredContent"] == Object(map["data" := shown]);
    assert At(Object(map["data" := shown]), [Field("data")]) == Some(shown);
  }

  /** A position of what a tool returned, as the reply shows it. It is there exactly when no field above it
      is hidden from the tool; then a hidden key holds the marker, a fresh invitation is as it was, and
      everything else is carried over. */
  lemma ShownExactly(host: Host, lines: seq<string>, line: string, call: ToolCall, output: Value, path: seq<Selector>)
    requires var st := After(host, lines);
             st.initialized && Calls(host, line, call) && host.answer(st.calls, call) == Ok(output)
    requires At(output, path).Some?
    ensures var before, after := At(output, path).value, At(Reply(host, After(host, lines), line), DATA + path);
            var issued := Issues(call.tool);
            && (after.Some? <==> forall k | 0 < k < |path| :: !UnderHiddenKey(path[..k], issued))
            && (after.Some? ==>
                  if UnderHiddenKey(path, issued) then after.value == String("[REDACTED]")
                  else if FreshInvitation(output, path, issued) then after.value == before
                  else Carried(before, after.value))
  {
    hide Step, After, Calls, IdOf, Sanitized, Succeeds, Issues, At, ToolAnswer, UnderHiddenKey, FreshInvitation,
      Carried;
    var st, issued := After(host, lines), Issues(call.tool);
    var reply := Reply(host, st, line);
    ToolReply(host, st, line, call);
    DataOf(host, reply, IdOf(host, line), Sanitized(output, issued, true), false);
    SanitizeTheorems.AtAppend(reply, DATA, path);
    ReachedExact(output, path, issued);
    if At(Sanitized(output, issued, true), path).Some? { PositionExact(output, path, issued); }
  }

  /** In any run, whatever the backend answers, a share link stands nowhere in the answer to a call other
      than `create_share`, nor a preview or an inbox link in that to any but its own tool, nor a secret or
      a transfer URL in any answer: where such a key is left, it holds the marker. */
  lemma LinksHidden(host: Host, lines: seq<string>, line: string, call: ToolCall, path: seq<Selector>, key: string)
    requires After(host, lines).initialized && Calls(host, line, call)
    requires || (ShareKey(key) && call.tool != "create_share")
             || (PreviewKey(key) && call.tool != "create_preview")
             || (InboxKey(key) && call.tool != "create_inbox")
             || (!ShareKey(key) && !PreviewKey(key) && !InboxKey(key) && (TransferKey(key) || SecretKey(key)))
    ensures var found := At(Reply(host, After(host, lines), line), DATA + path + [Field(key)]);
            found.Some? ==> found.value == String("[REDACTED]")
  {
    hide Step, After, Calls, IdOf, Sanitized, Succeeds, At, ToolAnswer, ShareKey, PreviewKey, InboxKey, TransferKey,
      SecretKey;
    var st := After(host, lines);
    var reply, last := Reply(host, st, line), path + [Field(key)];
    ToolReply(host, st, line, call);
    LinkKeys(key);
    var (shown, source, issued, failed) := match host.answer(st.calls, call)
      case Ok(output) => (Sanitized(output, Issues(call.tool), true), output, Issues(call.tool), false)
      case Err(error) =>
        var data := Object(map["code" := String(error.code), "message" := String(error.message)]);
        (Sanitized(data, NoCapability, true), data, NoCapability, true);
    DataOf(host, reply, IdOf(host, line), shown, failed);
    assert DATA + path + [Field(key)] == DATA + last;
    SanitizeTheorems.AtAppend(reply, DATA, last);
    if At(shown, last).Some? {
      assert UnderHiddenKey(last, issued);
      PositionExact(source, last, issued);
    }
  }
}
