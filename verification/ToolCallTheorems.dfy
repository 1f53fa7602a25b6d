/** Which tool calls are accepted, and what an accepted call proves about its arguments. */
module ToolCallTheorems {
  import opened Text
  import opened Json
  import opened ToolCalls

  // ----- exact acceptance

  predicate NonEmptyText(value: Value) { value.String? && value.text != "" }

  predicate AllNonEmptyText(value: Value)
  {
    value.Array? && forall i | 0 <= i < |value.items| :: NonEmptyText(value.items[i])
  }

  /** What a caller must supply for one argument. */
  predicate WellTyped(arguments: Arguments, param: Param)
  {
    var key := param.key;
    match param
    case Required(_) => key in arguments && NonEmptyText(arguments[key])
    case Optional(_) => key in arguments ==> NonEmptyText(arguments[key])
    case Switch(_) => key in arguments ==> arguments[key].Bool?
    case MustBeTrue(_) => key in arguments && arguments[key] == Bool(true)
    case Choice(_, allowed, _) => key in arguments && NonEmptyText(arguments[key]) && arguments[key].text in allowed
    case TextList(_) => key in arguments ==> AllNonEmptyText(arguments[key])
    case RequiredTextList(_) => key in arguments && AllNonEmptyText(arguments[key])
    case NonEmptyTextList(_) =>
      key in arguments && AllNonEmptyText(arguments[key]) && arguments[key].items != []
    case Nullable(_) => key in arguments && (arguments[key].Null? || NonEmptyText(arguments[key]))
    case ObjectMap(_) => key in arguments && arguments[key].Object?
    case PositiveCount(_) =>
      && key in arguments && arguments[key].Number? && arguments[key].numeral.Whole?
      && 0 < arguments[key].numeral.n < 0x1_0000_0000
  }

  lemma {:induction false} StringsExact(items: seq<Value>, complaint: string)
    ensures Strings(items, complaint).Ok? <==> forall i | 0 <= i < |items| :: NonEmptyText(items[i])
    ensures Strings(items, complaint).Ok? ==>
              var texts := Strings(items, complaint).value;
              |texts| == |items| && forall i | 0 <= i < |items| :: String(texts[i]) == items[i]
  {
    if items != [] {
      StringsExact(items[1..], complaint);
      assert forall i | 1 <= i < |items| :: items[i] == items[1..][i - 1];
    }
  }

  lemma ReadExact(arguments: Arguments, param: Param)
    ensures Read(arguments, param).Ok? <==> WellTyped(arguments, param)
  {
    var key := param.key;
    if key in arguments && arguments[key].Array? {
      StringsExact(arguments[key].items, key + " must contain non-empty strings");
      StringsExact(arguments[key].items, key + " must contain only non-empty strings");
    }
  }

  lemma {:induction false} ReadAllExact(arguments: Arguments, params: seq<Param>)
    ensures ReadAll(arguments, params).Ok? <==> forall i | 0 <= i < |params| :: WellTyped(arguments, params[i])
  {
    hide Read, WellTyped;
    if params != [] {
      ReadExact(arguments, params[0]);
      ReadAllExact(arguments, params[1..]);
      assert forall i | 1 <= i < |params| :: params[i] == params[1..][i - 1];
    }
  }

  predicate ScopeTyped(arguments: Arguments)
  {
    && ("workspace" in arguments ==> NonEmptyText(arguments["workspace"]))
    && ("project" in arguments ==> NonEmptyText(arguments["project"]))
  }

  predicate KnownTool(tool: string) { Params(tool).Some? }

  lemma NoForeignKeys(keys: set<string>, allowed: set<string>)
    ensures keys - allowed == {} <==> keys <= allowed
  {
    forall key | key in keys && key !in allowed ensures keys - allowed != {} {
      assert key in keys - allowed;
    }
  }

  /** A call is accepted exactly when the tool exists, no key is foreign to it and every argument is well typed. */
  lemma ParseExact(name: string, value: Value)
    ensures Parse(name, value).Ok? <==>
              && TOOL_PREFIX <= name && value.Object? && ScopeTyped(value.fields)
              && var tool := name[|TOOL_PREFIX|..];
                 && KnownTool(tool)
                 && value.fields.Keys <= AllowedKeys(tool)
                 && forall i | 0 <= i < |Params(tool).value| :: WellTyped(value.fields, Params(tool).value[i])
    ensures Parse(name, value).Ok? ==> name == TOOL_PREFIX + Parse(name, value).value.tool
  {
    hide Params, AllowedKeys, WellTyped, ReadAll;
    if TOOL_PREFIX <= name && value.Object? {
      var tool := name[|TOOL_PREFIX|..];
      NoForeignKeys(value.fields.Keys, AllowedKeys(tool));
      if Params(tool).Some? { ReadAllExact(value.fields, Params(tool).value); }
    }
  }

  // ----- the two tables agree

  function ReadKeys(params: seq<Param>): set<string>
  {
    set i | 0 <= i < |params| :: params[i].key
  }

  ghost predicate DistinctKeys(params: seq<Param>)
  {
    forall i, j | 0 <= i < j < |params| :: params[i].key != params[j].key
  }

  /** The parameters read exactly these keys, each once. */
  ghost predicate Fits(params: seq<Param>, keys: set<string>)
  {
    ReadKeys(params) == keys && DistinctKeys(params)
  }

  lemma {:induction false} FewerKeys(p: seq<Param>)
    ensures |ReadKeys(p)| <= |p|
  {
    if p != [] {
      var n := |p| - 1;
      FewerKeys(p[..n]);
      assert ReadKeys(p) == ReadKeys(p[..n]) + {p[n].key};
    }
  }

  /** As many keys as parameters leaves no room for a repetition. */
  lemma DistinctByCount(p: seq<Param>)
    requires |ReadKeys(p)| == |p|
    ensures DistinctKeys(p)
  {
    if i, j :| 0 <= i < j < |p| && p[i].key == p[j].key {
      var fewer := p[..j] + p[j + 1..];
      forall key | key in ReadKeys(p) ensures key in ReadKeys(fewer) {
        var k :| 0 <= k < |p| && p[k].key == key;
        var at := if k < j then k else if k == j then i else k - 1;
        assert fewer[at].key == key;
      }
      assert ReadKeys(fewer) == ReadKeys(p);
      FewerKeys(fewer);
    }
  }

  lemma FitsListed(p: seq<Param>, keys: set<string>)
    requires |p| == |keys|
    requires |p| == 0 ==> keys == {}
    requires |p| == 1 ==> keys == {p[0].key}
    requires |p| == 2 ==> keys == {p[0].key, p[1].key}
    requires |p| == 3 ==> keys == {p[0].key, p[1].key, p[2].key}
    requires |p| == 4 ==> keys == {p[0].key, p[1].key, p[2].key, p[3].key}
    requires |p| == 5 ==> keys == {p[0].key, p[1].key, p[2].key, p[3].key, p[4].key}
    requires |p| == 6 ==> keys == {p[0].key, p[1].key, p[2].key, p[3].key, p[4].key, p[5].key}
    requires |p| <= 6
    ensures Fits(p, keys)
  {
    assert ReadKeys(p) == keys;
    DistinctByCount(p);
  }

  lemma GroupTables(tool: string)
    requires GroupParams(tool).Some?
    ensures Fits(GroupParams(tool).value, GroupKeys(tool))
  {
    hide Fits;
    FitsListed(GroupParams(tool).value, GroupKeys(tool));
  }

  lemma AdminTables(tool: string)
    requires AdminParams(tool).Some?
    ensures Fits(AdminParams(tool).value, AdminKeys(tool))
  {
    hide Fits;
    FitsListed(AdminParams(tool).value, AdminKeys(tool));
  }

  lemma DashboardTables(tool: string)
    requires DashboardParams(tool).Some?
    ensures Fits(DashboardParams(tool).value, DashboardKeys(tool))
  {
    hide Fits;
    FitsListed(DashboardParams(tool).value, DashboardKeys(tool));
  }

  lemma GuestTables(tool: string)
    requires GuestParams(tool).Some?
    ensures Fits(GuestParams(tool).value, GuestKeys(tool))
  {
    hide Fits;
    FitsListed(GuestParams(tool).value, GuestKeys(tool));
  }

  lemma RegularTables(tool: string)
    requires RegularParams(tool).Some?
    ensures Fits(RegularParams(tool).value, RegularKeys(tool))
  {
    hide Fits;
    FitsListed(RegularParams(tool).value, RegularKeys(tool));
  }

  lemma IdentityTables(tool: string)
    requires IdentityParams(tool).Some?
    ensures Fits(IdentityParams(tool).value, IdentityKeys(tool))
  {
    hide Fits;
    FitsListed(IdentityParams(tool).value, IdentityKeys(tool));
  }

  lemma SiteTables(tool: string)
    requires SiteParams(tool).Some?
    ensures Fits(SiteParams(tool).value, SiteKeys(tool))
  {
    hide Fits;
    FitsListed(SiteParams(tool).value, SiteKeys(tool));
  }

  lemma ParamsFit(tool: string)
    requires KnownTool(tool)
    ensures Fits(Params(tool).value, KeysOf(FamilyOf(tool), tool))
  {
    hide FamilyOf, Fits, GroupParams, AdminParams, DashboardParams, GuestParams, IdentityParams, SiteParams,
      RegularParams, GroupKeys, AdminKeys, DashboardKeys, GuestKeys, IdentityKeys, SiteKeys, RegularKeys;
    match FamilyOf(tool) {
      case Group => GroupTables(tool);
      case Admin => AdminTables(tool);
      case Dashboard => DashboardTables(tool);
      case Guest => GuestTables(tool);
      case Yard => if IdentityParams(tool).Some? { IdentityTables(tool); } else { SiteTables(tool); }
      case Regular => RegularTables(tool);
    }
  }

  /** The keys a tool may carry are exactly the keys its parser reads, each read once, plus the two
      scope overrides. */
  lemma TablesAgree(tool: string)
    requires KnownTool(tool)
    ensures AllowedKeys(tool) == ReadKeys(Params(tool).value) + {"workspace", "project"}
    ensures DistinctKeys(Params(tool).value)
  {
    hide FamilyOf, KeysOf, Params, KnownTool;
    ParamsFit(tool);
  }

  // ----- what an accepted call carries

  /** The JSON value an argument of the call stands for. */
  function AsJson(arg: Arg): Value
  {
    match arg
    case Text(text) => String(text)
    case Flag(flag) => Bool(flag)
    case Texts(texts) => Array(seq(|texts|, i requires 0 <= i < |texts| => String(texts[i])))
    case Count(count) => Number(Whole(count))
    case Tree(value) => value
  }

  /** The call holds the caller's value for this argument; an absent switch is false, an absent list
      empty, and a null or a satisfied safeguard leaves nothing. */
  predicate Carried(read: map<string, Arg>, arguments: Arguments, param: Param)
  {
    var key := param.key;
    if param.MustBeTrue? || (param.Nullable? && key in arguments && arguments[key].Null?) then key !in read
    else if key in arguments then key in read && AsJson(read[key]) == arguments[key]
    else if param.Switch? then key in read && read[key] == Flag(false)
    else if param.TextList? then key in read && read[key] == Texts([])
    else key !in read
  }

  lemma ReadCarries(arguments: Arguments, param: Param)
    requires Read(arguments, param).Ok?
    ensures var first := Read(arguments, param).value;
            Carried(if first.Some? then map[param.key := first.value] else map[], arguments, param)
  {
    var key := param.key;
    if key in arguments && arguments[key].Array? {
      var items := arguments[key].items;
      StringsExact(items, key + " must contain non-empty strings");
      StringsExact(items, key + " must contain only non-empty strings");
      var first := Read(arguments, param).value;
      if first.Some? && first.value.Texts? { assert AsJson(first.value).items == items; }
    }
  }

  lemma {:induction false} ReadAllKeys(arguments: Arguments, params: seq<Param>)
    requires ReadAll(arguments, params).Ok?
    ensures forall key | key in ReadAll(arguments, params).value :: exists i | 0 <= i < |params| :: params[i].key == key
  {
    hide Read;
    if params != [] {
      ReadAllKeys(arguments, params[1..]);
      forall key | key in ReadAll(arguments, params).value
        ensures exists i | 0 <= i < |params| :: params[i].key == key
      {
        if key != params[0].key {
          var i :| 0 <= i < |params[1..]| && params[1..][i].key == key;
          assert params[i + 1].key == key;
        }
      }
    }
  }

  lemma {:induction false} ReadAllCarries(arguments: Arguments, params: seq<Param>, i: nat)
    requires ReadAll(arguments, params).Ok? && DistinctKeys(params) && i < |params|
    ensures Carried(ReadAll(arguments, params).value, arguments, params[i])
  {
    hide Read, AsJson;
    var rest := params[1..];
    if i > 0 {
      ReadAllCarries(arguments, rest, i - 1);
      assert params[i] == rest[i - 1] && params[0].key != params[i].key;
    } else {
      ReadCarries(arguments, params[0]);
      ReadAllKeys(arguments, rest);
      assert params[0].key !in ReadAll(arguments, rest).value by {
        assert forall k | 0 <= k < |rest| :: rest[k].key == params[k + 1].key;
      }
    }
  }

  /** An accepted call names its tool, its scope overrides and, argument by argument, what the caller
      sent, and nothing else. */
  lemma ParsedCarries(name: string, value: Value)
    ensures Parse(name, value).Ok? ==>
              var call := Parse(name, value).value;
              && value.Object? && KnownTool(call.tool) && name == TOOL_PREFIX + call.tool
              && call.scope == Scope(AsString(Get(value.fields, "workspace")), AsString(Get(value.fields, "project")))
              && (forall i | 0 <= i < |Params(call.tool).value| ::
                    Carried(call.arguments, value.fields, Params(call.tool).value[i]))
              && forall key | key in call.arguments :: key in ReadKeys(Params(call.tool).value)
  {
    hide Params, AllowedKeys, ReadAll, Carried;
    ParseExact(name, value);
    if Parse(name, value).Ok? {
      var call := Parse(name, value).value;
      var params := Params(call.tool).value;
      TablesAgree(call.tool);
      assert ReadAll(value.fields, params) == Ok(call.arguments);
      forall i | 0 <= i < |params| ensures Carried(call.arguments, value.fields, params[i]) {
        ReadAllCarries(value.fields, params, i);
      }
      ReadAllKeys(value.fields, params);
      forall key | key in call.arguments ensures key in ReadKeys(params) {
        var i :| 0 <= i < |params| && params[i].key == key;
      }
    }
  }

  // ----- safeguards

  /** The parser of this tool accepts a call only if this argument is the boolean `true`. */
  predicate Demands(tool: string, key: string)
  {
    KnownTool(tool) && MustBeTrue(key) in Params(tool).value
  }

  /** The argument that must be the boolean `true` before a tool may act. */
  function Safeguard(tool: string): Option<string>
  {
    match tool
    case "revoke_invite" => Some("confirm")
    case "update_member_role" => Some("confirm")
    case "remove_member" => Some("confirm")
    case "deactivate_local_user" => Some("confirm")
    case "revoke_api_token" => Some("confirm")
    case "revoke_ci_trust" => Some("confirm")
    case "revoke_cli_session" => Some("confirm")
    case "remove_group_member" => Some("confirm")
    case "deactivate_group" => Some("confirm")
    case "delete_web_yard" => Some("confirm")
    case "deploy_web_yard" => Some("public")
    case _ => None
  }

  /** These parameters demand exactly this safeguard, before reading anything else. */
  ghost predicate Guards(params: seq<Param>, safeguard: Option<string>)
  {
    && (safeguard.Some? ==> params != [] && params[0] == MustBeTrue(safeguard.value))
    && (forall i | 0 <= i < |params| && params[i].MustBeTrue? :: safeguard == Some(params[i].key))
  }

  lemma GroupGuards(tool: string)
    requires GroupParams(tool).Some?
    ensures Guards(GroupParams(tool).value, Safeguard(tool))
  {
  }

  lemma AdminGuards(tool: string)
    requires AdminParams(tool).Some?
    ensures Guards(AdminParams(tool).value, Safeguard(tool))
  {
  }

  lemma DashboardGuards(tool: string)
    requires DashboardParams(tool).Some?
    ensures Guards(DashboardParams(tool).value, Safeguard(tool))
  {
  }

  lemma GuestGuards(tool: string)
    requires GuestParams(tool).Some?
    ensures Guards(GuestParams(tool).value, Safeguard(tool))
  {
  }

  lemma IdentityGuards(tool: string)
    requires IdentityParams(tool).Some?
    ensures Guards(IdentityParams(tool).value, Safeguard(tool))
  {
  }

  lemma SiteGuards(tool: string)
    requires SiteParams(tool).Some?
    ensures Guards(SiteParams(tool).value, Safeguard(tool))
  {
  }

  lemma RegularGuards(tool: string)
    requires RegularParams(tool).Some?
    ensures Guards(RegularParams(tool).value, Safeguard(tool))
  {
  }

  lemma SafeguardedIsKnown(tool: string)
    requires Safeguard(tool).Some?
    ensures KnownTool(tool)
  {
    hide DashboardParams, GuestParams, IdentityParams, RegularParams;
  }

  /** The safeguard of every tool is what its parser demands, and it is read before anything else. */
  lemma SafeguardExact(tool: string, key: string)
    ensures Safeguard(tool) == Some(key) <==> Demands(tool, key)
    ensures Demands(tool, key) ==> Params(tool).value[0] == MustBeTrue(key)
  {
    hide FamilyOf, Safeguard, GroupParams, AdminParams, DashboardParams, GuestParams, IdentityParams, SiteParams,
      RegularParams;
    if KnownTool(tool) {
      match FamilyOf(tool) {
        case Group => GroupGuards(tool);
        case Admin => AdminGuards(tool);
        case Dashboard => DashboardGuards(tool);
        case Guest => GuestGuards(tool);
        case Yard => if IdentityParams(tool).Some? { IdentityGuards(tool); } else { SiteGuards(tool); }
        case Regular => RegularGuards(tool);
      }
    } else if Safeguard(tool).Some? {
      SafeguardedIsKnown(tool);
    }
  }

  // ----- what the catalogues advertise as destructive

  datatype Catalogue = Main | Administration | Groups

  /** The catalogue that lists this tool with a destructive hint, if one does. */
  function Destructive(tool: string): Option<Catalogue>
  {
    match tool
    case "delete_object" => Some(Main)
    case "revoke_share" => Some(Main)
    case "revoke_preview" => Some(Main)
    case "revoke_inbox" => Some(Main)
    case "set_retention" => Some(Main)
    case "clear_retention" => Some(Main)
    case "set_yard_visibility" => Some(Main)
    case "revoke_yard_access" => Some(Main)
    case "revoke_yard_guest_invite" => Some(Main)
    case "revoke_yard_management_role" => Some(Main)
    case "revoke_yard_session" => Some(Main)
    case "rollback_web_yard" => Some(Main)
    case "delete_web_yard" => Some(Main)
    case "revoke_invite" => Some(Administration)
    case "update_member_role" => Some(Administration)
    case "remove_member" => Some(Administration)
    case "deactivate_local_user" => Some(Administration)
    case "revoke_api_token" => Some(Administration)
    case "revoke_ci_trust" => Some(Administration)
    case "revoke_cli_session" => Some(Administration)
    case "remove_group_member" => Some(Groups)
    case "deactivate_group" => Some(Groups)
    case _ => None
  }

  /** Only destructive tools ask for confirmation; of those, all that the administration and group
      catalogues list do, and of the main catalogue only the deletion of a Yard. */
  lemma ConfirmationExact(tool: string)
    ensures Demands(tool, "confirm") <==>
              Destructive(tool).Some? && (Destructive(tool) != Some(Main) || tool == "delete_web_yard")
    ensures Demands(tool, "public") <==> tool == "deploy_web_yard"
  {
    hide Demands;
    SafeguardExact(tool, "confirm");
    SafeguardExact(tool, "public");
  }

  // ----- authorisation

  /** What every accepted call proves about the arguments it was parsed from. */
  predicate Authorised(call: ToolCall, arguments: Arguments)
  {
    && KnownTool(call.tool)
    && arguments.Keys <= AllowedKeys(call.tool)
    && (Safeguard(call.tool).Some? ==>
          Safeguard(call.tool).value in arguments && arguments[Safeguard(call.tool).value] == Bool(true))
  }

  lemma ParsedIsAuthorised(name: string, value: Value)
    ensures Parse(name, value).Ok? ==> value.Object? && Authorised(Parse(name, value).value, value.fields)
  {
    hide Params, AllowedKeys, Safeguard, Parse;
    ParseExact(name, value);
    if Parse(name, value).Ok? {
      var tool := Parse(name, value).value.tool;
      assert tool == name[|TOOL_PREFIX|..];
      if Safeguard(tool).Some? {
        SafeguardExact(tool, Safeguard(tool).value);
        assert WellTyped(value.fields, Params(tool).value[0]);
      }
    }
  }
}
