/** What a refused tool call is told, and which of several faults is reported. */
module ToolRefusals {
  import opened Text
  import opened Json
  import opened ToolCalls
  import opened ToolCallTheorems
  import opened Order

  /** What is wrong with an argument that is not well typed: it is missing, or it is of the wrong kind. */
  function Complaint(arguments: Arguments, param: Param): string
  {
    var key := param.key;
    var value := if key in arguments then arguments[key] else Null;
    if param.PositiveCount? then "latest must be a positive 32-bit integer"
    else if param.ObjectMap? then key + " must be an object"
    else if param.NonEmptyTextList? then
      if value.Array? && value.items != [] then key + " must contain only non-empty strings"
      else key + " must be a non-empty string array"
    else if key !in arguments then "missing required argument: " + key
    else if param.Switch? then key + " must be a boolean"
    else if param.MustBeTrue? then
      if value.Bool? then key + " must be true to confirm this operation" else key + " must be a boolean"
    else if param.TextList? || param.RequiredTextList? then
      if value.Array? then key + " must contain non-empty strings" else key + " must be an array of strings"
    else if param.Nullable? then key + " must be a non-empty string or null"
    else if param.Choice? && NonEmptyText(value) then param.complaint
    else key + " must be a non-empty string"
  }

  lemma {:induction false} StringsComplain(items: seq<Value>, complaint: string)
    ensures Strings(items, complaint).Err? ==> Strings(items, complaint) == Err(complaint)
  {
    if items != [] { StringsComplain(items[1..], complaint); }
  }

  predicate ListReader(param: Param)
  {
    param.TextList? || param.RequiredTextList? || param.NonEmptyTextList?
  }

  lemma ListComplains(arguments: Arguments, param: Param)
    requires ListReader(param) && Read(arguments, param).Err?
    ensures Read(arguments, param) == Err(Complaint(arguments, param))
  {
    hide Strings;
    var key := param.key;
    if key in arguments && arguments[key].Array? {
      StringsComplain(arguments[key].items, key + " must contain non-empty strings");
      StringsComplain(arguments[key].items, key + " must contain only non-empty strings");
    }
  }

  lemma ScalarComplains(arguments: Arguments, param: Param)
    requires !ListReader(param) && Read(arguments, param).Err?
    ensures Read(arguments, param) == Err(Complaint(arguments, param))
  {
    hide StringList, Strings;
  }

  lemma ReadComplains(arguments: Arguments, param: Param)
    requires !WellTyped(arguments, param)
    ensures Read(arguments, param) == Err(Complaint(arguments, param))
  {
    hide Read, WellTyped, Complaint;
    ReadExact(arguments, param);
    if ListReader(param) { ListComplains(arguments, param); } else { ScalarComplains(arguments, param); }
  }

  lemma {:induction false} ReadAllComplains(arguments: Arguments, params: seq<Param>, k: nat)
    requires k < |params| && !WellTyped(arguments, params[k])
    requires forall i | 0 <= i < k :: WellTyped(arguments, params[i])
    ensures ReadAll(arguments, params) == Err(Complaint(arguments, params[k]))
  {
    hide Read, WellTyped, Complaint;
    ReadExact(arguments, params[0]);
    if k == 0 {
      ReadComplains(arguments, params[0]);
    } else {
      assert forall i | 0 <= i < k - 1 :: params[1..][i] == params[i + 1];
      ReadAllComplains(arguments, params[1..], k - 1);
    }
  }

  /** The least key, in byte order, that the tool does not take. */
  ghost predicate FirstForeign(key: string, arguments: Arguments, allowed: set<string>)
  {
    key in arguments && key !in allowed && forall other | other in arguments && other !in allowed :: Leq(key, other)
  }

  lemma ForeignRefused(tool: string, arguments: Arguments, scope: Scope, key: string)
    requires FirstForeign(key, arguments, AllowedKeys(tool))
    ensures ParseTool(tool, arguments, scope) == Err("unexpected argument: " + key)
  {
    hide AllowedKeys, Params, ReadAll;
    var unexpected := arguments.Keys - AllowedKeys(tool);
    assert key in unexpected;
    var least := Least(unexpected);
    assert Leq(key, least) && Leq(least, key);
    LeqAntisymmetric(key, least);
  }

  ghost predicate ScopeRefused(arguments: Arguments, key: string)
  {
    key in arguments && !NonEmptyText(arguments[key])
  }

  /** A name outside the family of tools, or arguments that are no object. */
  lemma NameRefused(name: string, value: Value)
    ensures !("blobyard_" <= name) ==> Parse(name, value) == Err("unknown tool: " + name)
    ensures "blobyard_" <= name && !value.Object? ==> Parse(name, value) == Err("tool arguments must be an object")
  {
    hide ParseScope, ParseTool;
  }

  /** A workspace that is not a nonempty text, and after it such a project. */
  lemma ScopeRefusal(name: string, arguments: Arguments)
    requires "blobyard_" <= name
    ensures ScopeRefused(arguments, "workspace") ==>
              Parse(name, Object(arguments)) == Err("workspace must be a non-empty string")
    ensures !ScopeRefused(arguments, "workspace") && ScopeRefused(arguments, "project") ==>
              Parse(name, Object(arguments)) == Err("project must be a non-empty string")
    ensures !ScopeRefused(arguments, "workspace") && !ScopeRefused(arguments, "project") ==>
              exists scope :: Parse(name, Object(arguments)) == ParseTool(name[9..], arguments, scope)
  {
    hide ParseTool;
    assert |TOOL_PREFIX| == 9;
    assert "workspace" + " must be a non-empty string" == "workspace must be a non-empty string";
    assert "project" + " must be a non-empty string" == "project must be a non-empty string";
    if !ScopeRefused(arguments, "workspace") && !ScopeRefused(arguments, "project") {
      var scope := ParseScope(arguments).value;
      assert Parse(name, Object(arguments)) == ParseTool(name[9..], arguments, scope);
    }
  }

  /** After the name and the scope the first fault decides: the least foreign key, then a tool that does not
      exist, then the first argument, in the order they are read, that is not well typed. */
  lemma ArgumentsRefused(name: string, arguments: Arguments)
    requires "blobyard_" <= name && !ScopeRefused(arguments, "workspace") && !ScopeRefused(arguments, "project")
    ensures var tool, answer := name[9..], Parse(name, Object(arguments));
            && (forall key | FirstForeign(key, arguments, AllowedKeys(tool)) ::
                  answer == Err("unexpected argument: " + key))
            && (arguments.Keys <= AllowedKeys(tool) && !KnownTool(tool) ==> answer == Err("unknown tool: " + tool))
            && (arguments.Keys <= AllowedKeys(tool) && KnownTool(tool) ==>
                  forall k | 0 <= k < |Params(tool).value| && !WellTyped(arguments, Params(tool).value[k]) &&
                             (forall i | 0 <= i < k :: WellTyped(arguments, Params(tool).value[i])) ::
                    answer == Err(Complaint(arguments, Params(tool).value[k])))
  {
    hide Params, AllowedKeys, WellTyped, ReadAll, Complaint, FirstForeign, ParseTool, Parse;
    ScopeRefusal(name, arguments);
    var scope :| Parse(name, Object(arguments)) == ParseTool(name[9..], arguments, scope);
    ToolRefusal(name[9..], arguments, scope);
  }

  lemma ToolRefusal(tool: string, arguments: Arguments, scope: Scope)
    ensures forall key | FirstForeign(key, arguments, AllowedKeys(tool)) ::
              ParseTool(tool, arguments, scope) == Err("unexpected argument: " + key)
    ensures arguments.Keys <= AllowedKeys(tool) && !KnownTool(tool) ==>
              ParseTool(tool, arguments, scope) == Err("unknown tool: " + tool)
    ensures arguments.Keys <= AllowedKeys(tool) && KnownTool(tool) ==>
              forall k | 0 <= k < |Params(tool).value| && !WellTyped(arguments, Params(tool).value[k]) &&
                         (forall i | 0 <= i < k :: WellTyped(arguments, Params(tool).value[i])) ::
                ParseTool(tool, arguments, scope) == Err(Complaint(arguments, Params(tool).value[k]))
  {
    hide Params, AllowedKeys, WellTyped, ReadAll, Complaint, FirstForeign;
    NoForeignKeys(arguments.Keys, AllowedKeys(tool));
    forall key | FirstForeign(key, arguments, AllowedKeys(tool))
      ensures ParseTool(tool, arguments, scope) == Err("unexpected argument: " + key)
    {
      ForeignRefused(tool, arguments, scope, key);
    }
    if arguments.Keys <= AllowedKeys(tool) && KnownTool(tool) {
      var params := Params(tool).value;
      forall k | 0 <= k < |params| && !WellTyped(arguments, params[k]) &&
                 (forall i | 0 <= i < k :: WellTyped(arguments, params[i]))
        ensures ParseTool(tool, arguments, scope) == Err(Complaint(arguments, params[k]))
      {
        ReadAllComplains(arguments, params, k);
      }
    }
  }
}
