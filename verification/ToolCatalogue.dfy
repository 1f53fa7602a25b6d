/** The argument schemas the server advertises, and the parser measured against them. */
module ToolCatalogue {
  import opened Text
  import opened Json
  import opened ToolCalls
  import opened ToolCallTheorems

  /** What a schema says of one property. A list of actions has at least one item and no two alike; a role
      map holds objects with two lists of texts. */
  datatype Kind = Words | Truth | OneOf(values: seq<string>) | WordList | Actions | WordsOrNull | RoleMap | Positive

  datatype Property = Property(key: string, kind: Kind, required: bool)

  // ----- the catalogues; within a tool the properties stand in the order the parser reads them

  function GroupSchema(tool: string): Option<seq<Property>>
  {
    match tool
    case "list_groups" => Some([Property("cursor", Words, false)])
    case "create_group" => Some([Property("name", Words, true)])
    case "rename_group" => Some([Property("group_id", Words, true), Property("name", Words, true)])
    case "list_group_members" => Some([Property("group_id", Words, true), Property("cursor", Words, false)])
    case "add_group_member" => Some([Property("group_id", Words, true), Property("user_id", Words, true)])
    case "remove_group_member" =>
      Some([Property("confirm", Truth, true), Property("group_id", Words, true), Property("user_id", Words, true)])
    case "deactivate_group" => Some([Property("confirm", Truth, true), Property("group_id", Words, true)])
    case _ => None
  }

  function AdminSchema(tool: string): Option<seq<Property>>
  {
    match tool
    case "list_audit" => Some([Property("cursor", Words, false)])
    case "list_members" => Some([])
    case "list_invites" => Some([])
    case "list_local_users" => Some([])
    case "list_api_tokens" => Some([])
    case "list_ci_trusts" => Some([])
    case "list_cli_sessions" => Some([])
    case "create_invite" =>
      Some([Property("email", Words, true), Property("role", OneOf(["admin", "member", "owner"]), true)])
    case "revoke_invite" => Some([Property("confirm", Truth, true), Property("invite_id", Words, true)])
    case "update_member_role" =>
      Some([Property("confirm", Truth, true), Property("user_id", Words, true),
            Property("role", OneOf(["admin", "member", "owner"]), true)])
    case "remove_member" => Some([Property("confirm", Truth, true), Property("user_id", Words, true)])
    case "deactivate_local_user" => Some([Property("confirm", Truth, true), Property("user_id", Words, true)])
    case "revoke_api_token" => Some([Property("confirm", Truth, true), Property("token_id", Words, true)])
    case "create_ci_trust" =>
      Some([Property("repository", Words, true), Property("workflow_path", Words, true),
            Property("workflow_ref", Words, true), Property("allowed_ref_glob", Words, true),
            Property("allowed_actions", Actions, true), Property("environment", Words, false)])
    case "revoke_ci_trust" => Some([Property("confirm", Truth, true), Property("trust_id", Words, true)])
    case "revoke_cli_session" => Some([Property("confirm", Truth, true), Property("session_id", Words, true)])
    case _ => None
  }

  function DashboardSchema(tool: string): Option<seq<Property>>
  {
    match tool
    case "rename_workspace" => Some([Property("name", Words, true)])
    case "get_billing" => Some([])
    case "get_account_export" => Some([])
    case "request_account_export" => Some([])
    case "get_account_deletion" => Some([])
    case "get_retention_overview" => Some([])
    case _ => None
  }

  function GuestSchema(tool: string): Option<seq<Property>>
  {
    match tool
    case "list_yard_guest_invites" => Some([Property("yard", Words, true), Property("cursor", Words, false)])
    case "create_yard_guest_invite" =>
      Some([Property("yard", Words, true), Property("email", Words, true), Property("roles", WordList, false),
            Property("environment_id", Words, false), Property("expires_at", Words, false)])
    case "revoke_yard_guest_invite" => Some([Property("yard", Words, true), Property("invitation_id", Words, true)])
    case _ => None
  }

  function IdentitySchema(tool: string): Option<seq<Property>>
  {
    match tool
    case "list_yard_management_roles" => Some([Property("yard", Words, true), Property("cursor", Words, false)])
    case "set_yard_management_role" =>
      Some([Property("yard", Words, true), Property("user_id", Words, true), Property("role", Words, true)])
    case "revoke_yard_management_role" => Some([Property("yard", Words, true), Property("user_id", Words, true)])
    case "get_yard_application_policy" => Some([Property("yard", Words, true)])
    case "set_yard_application_policy" =>
      Some([Property("yard", Words, true), Property("source_manifest_digest", Words, true),
            Property("default_role", WordsOrNull, true), Property("roles", RoleMap, true)])
    case "set_yard_access_roles" =>
      Some([Property("yard", Words, true), Property("grant_id", Words, true), Property("roles", WordList, true)])
    case _ => None
  }

  function SiteSchema(tool: string): Option<seq<Property>>
  {
    match tool
    case "list_web_yards" => Some([])
    case "deploy_web_yard" =>
      Some([Property("public", Truth, true), Property("directory", Words, true), Property("yard", Words, true),
            Property("spa", Truth, false), Property("clean_urls", Truth, false)])
    case "list_yard_deploys" => Some([Property("yard", Words, true)])
    case "list_yard_environments" => Some([Property("yard", Words, true)])
    case "get_yard_access" => Some([Property("yard", Words, true)])
    case "list_yard_sessions" => Some([Property("yard", Words, true)])
    case "set_yard_visibility" => Some([Property("yard", Words, true), Property("visibility", Words, true)])
    case "grant_yard_access" =>
      Some([Property("yard", Words, true), Property("principal_kind", Words, true),
            Property("principal_id", Words, true), Property("roles", WordList, false),
            Property("environment_id", Words, false), Property("expires_at", Words, false)])
    case "revoke_yard_access" => Some([Property("yard", Words, true), Property("grant_id", Words, true)])
    case "revoke_yard_session" => Some([Property("yard", Words, true), Property("session_id", Words, true)])
    case "rollback_web_yard" => Some([Property("yard", Words, true), Property("deploy_id", Words, false)])
    case "delete_web_yard" => Some([Property("confirm", Truth, true), Property("yard", Words, true)])
    case _ => None
  }

  function ObjectSchema(tool: string): Option<seq<Property>>
  {
    match tool
    case "whoami" => Some([])
    case "list_workspaces" => Some([])
    case "list_projects" => Some([])
    case "get_retention" => Some([])
    case "list_inboxes" => Some([])
    case "list_shares" => Some([])
    case "list_previews" => Some([])
    case "clear_retention" => Some([])
    case "create_workspace" => Some([Property("name", Words, true)])
    case "create_project" => Some([Property("name", Words, true)])
    case "list_objects" => Some([Property("prefix", Words, false), Property("versions", Truth, false)])
    case "upload_file" =>
      Some([Property("source", Words, true), Property("path", Words, false), Property("include_ignored", Truth, false)])
    case "download_file" =>
      Some([Property("uri", Words, true), Property("output", Words, true), Property("force", Truth, false)])
    case "delete_object" => Some([Property("uri", Words, true)])
    case "create_share" =>
      Some([Property("target", Words, true), Property("expires", Words, false), Property("notify", Words, false)])
    case "revoke_share" => Some([Property("share_id", Words, true)])
    case "create_preview" => Some([Property("directory", Words, true), Property("expires", Words, false)])
    case "revoke_preview" => Some([Property("preview_id", Words, true)])
    case "create_inbox" => Some([Property("name", Words, true), Property("expires", Words, false)])
    case "revoke_inbox" => Some([Property("inbox_id", Words, true)])
    case "set_retention" =>
      Some([Property("latest", Positive, true), Property("branch", Words, false), Property("path", Words, false)])
    case _ => None
  }

  /** The properties of a tool besides the two scope overrides, which every tool has. */
  function Schema(tool: string): Option<seq<Property>>
  {
    if GroupSchema(tool).Some? then GroupSchema(tool)
    else if AdminSchema(tool).Some? then AdminSchema(tool)
    else if DashboardSchema(tool).Some? then DashboardSchema(tool)
    else if GuestSchema(tool).Some? then GuestSchema(tool)
    else if IdentitySchema(tool).Some? then IdentitySchema(tool)
    else if SiteSchema(tool).Some? then SiteSchema(tool)
    else ObjectSchema(tool)
  }

  // ----- parameters and properties

  /** The property that tells a caller what this reader takes. */
  function Advertised(param: Param): Property
  {
    match param
    case Required(key) => Property(key, Words, true)
    case Optional(key) => Property(key, Words, false)
    case Switch(key) => Property(key, Truth, false)
    case MustBeTrue(key) => Property(key, Truth, true)
    case Choice(key, allowed, _) => Property(key, OneOf(allowed), true)
    case TextList(key) => Property(key, WordList, false)
    case RequiredTextList(key) => Property(key, WordList, true)
    case NonEmptyTextList(key) => Property(key, Actions, true)
    case Nullable(key) => Property(key, WordsOrNull, true)
    case ObjectMap(key) => Property(key, RoleMap, true)
    case PositiveCount(key) => Property(key, Positive, true)
  }

  /** The property is the one for this reader; the values of a choice may be left to its description. */
  predicate Matches(param: Param, property: Property)
  {
    property == Advertised(param) || (param.Choice? && property == Property(param.key, Words, true))
  }

  ghost predicate Agrees(params: seq<Param>, schema: seq<Property>)
  {
    |params| == |schema| && forall i | 0 <= i < |params| :: Matches(params[i], schema[i])
  }

  lemma AgreesListed(p: seq<Param>, s: seq<Property>)
    requires |p| == |s| <= 6
    requires |p| > 0 ==> Matches(p[0], s[0])
    requires |p| > 1 ==> Matches(p[1], s[1])
    requires |p| > 2 ==> Matches(p[2], s[2])
    requires |p| > 3 ==> Matches(p[3], s[3])
    requires |p| > 4 ==> Matches(p[4], s[4])
    requires |p| > 5 ==> Matches(p[5], s[5])
    ensures Agrees(p, s)
  {
  }

  lemma GroupListed(tool: string)
    ensures GroupParams(tool).Some? <==> GroupSchema(tool).Some?
  {
  }

  lemma GroupAgrees(tool: string)
    requires GroupParams(tool).Some? && GroupSchema(tool).Some?
    ensures Agrees(GroupParams(tool).value, GroupSchema(tool).value)
  {
    hide Agrees;
    AgreesListed(GroupParams(tool).value, GroupSchema(tool).value);
  }

  lemma AdminListed(tool: string)
    ensures AdminParams(tool).Some? <==> AdminSchema(tool).Some?
  {
  }

  lemma ShortAdminAgrees(tool: string)
    requires AdminParams(tool).Some? && AdminSchema(tool).Some? && |AdminParams(tool).value| <= 1
    ensures Agrees(AdminParams(tool).value, AdminSchema(tool).value)
  {
    hide Agrees;
    AgreesListed(AdminParams(tool).value, AdminSchema(tool).value);
  }

  lemma LongAdminAgrees(tool: string)
    requires AdminParams(tool).Some? && AdminSchema(tool).Some? && |AdminParams(tool).value| > 1
    ensures Agrees(AdminParams(tool).value, AdminSchema(tool).value)
  {
    hide Agrees;
    AgreesListed(AdminParams(tool).value, AdminSchema(tool).value);
  }

  lemma AdminAgrees(tool: string)
    requires AdminParams(tool).Some? && AdminSchema(tool).Some?
    ensures Agrees(AdminParams(tool).value, AdminSchema(tool).value)
  {
    hide Agrees, AdminParams, AdminSchema;
    if |AdminParams(tool).value| <= 1 { ShortAdminAgrees(tool); } else { LongAdminAgrees(tool); }
  }

  lemma DashboardListed(tool: string)
    ensures DashboardParams(tool).Some? <==> DashboardSchema(tool).Some?
  {
  }

  lemma DashboardAgrees(tool: string)
    requires DashboardParams(tool).Some? && DashboardSchema(tool).Some?
    ensures Agrees(DashboardParams(tool).value, DashboardSchema(tool).value)
  {
    hide Agrees;
    AgreesListed(DashboardParams(tool).value, DashboardSchema(tool).value);
  }

  lemma GuestListed(tool: string)
    ensures GuestParams(tool).Some? <==> GuestSchema(tool).Some?
  {
  }

  lemma GuestAgrees(tool: string)
    requires GuestParams(tool).Some? && GuestSchema(tool).Some?
    ensures Agrees(GuestParams(tool).value, GuestSchema(tool).value)
  {
    hide Agrees;
    AgreesListed(GuestParams(tool).value, GuestSchema(tool).value);
  }

  lemma IdentityListed(tool: string)
    ensures IdentityParams(tool).Some? <==> IdentitySchema(tool).Some?
  {
  }

  lemma ShortIdentityAgrees(tool: string)
    requires IdentityParams(tool).Some? && IdentitySchema(tool).Some? && |IdentityParams(tool).value| <= 2
    ensures Agrees(IdentityParams(tool).value, IdentitySchema(tool).value)
  {
    hide Agrees;
    AgreesListed(IdentityParams(tool).value, IdentitySchema(tool).value);
  }

  lemma LongIdentityAgrees(tool: string)
    requires IdentityParams(tool).Some? && IdentitySchema(tool).Some? && |IdentityParams(tool).value| > 2
    ensures Agrees(IdentityParams(tool).value, IdentitySchema(tool).value)
  {
    hide Agrees;
    AgreesListed(IdentityParams(tool).value, IdentitySchema(tool).value);
  }

  lemma IdentityAgrees(tool: string)
    requires IdentityParams(tool).Some? && IdentitySchema(tool).Some?
    ensures Agrees(IdentityParams(tool).value, IdentitySchema(tool).value)
  {
    hide Agrees, IdentityParams, IdentitySchema;
    if |IdentityParams(tool).value| <= 2 { ShortIdentityAgrees(tool); } else { LongIdentityAgrees(tool); }
  }

  lemma SiteListed(tool: string)
    ensures SiteParams(tool).Some? <==> SiteSchema(tool).Some?
  {
  }

  lemma ShortSiteAgrees(tool: string)
    requires SiteParams(tool).Some? && SiteSchema(tool).Some? && |SiteParams(tool).value| <= 1
    ensures Agrees(SiteParams(tool).value, SiteSchema(tool).value)
  {
    hide Agrees;
    AgreesListed(SiteParams(tool).value, SiteSchema(tool).value);
  }

  lemma LongSiteAgrees(tool: string)
    requires SiteParams(tool).Some? && SiteSchema(tool).Some? && |SiteParams(tool).value| > 1
    ensures Agrees(SiteParams(tool).value, SiteSchema(tool).value)
  {
    hide Agrees;
    AgreesListed(SiteParams(tool).value, SiteSchema(tool).value);
  }

  lemma SiteAgrees(tool: string)
    requires SiteParams(tool).Some? && SiteSchema(tool).Some?
    ensures Agrees(SiteParams(tool).value, SiteSchema(tool).value)
  {
    hide Agrees, SiteParams, SiteSchema;
    if |SiteParams(tool).value| <= 1 { ShortSiteAgrees(tool); } else { LongSiteAgrees(tool); }
  }

  lemma ObjectListed(tool: string)
    ensures RegularParams(tool).Some? <==> ObjectSchema(tool).Some?
  {
  }

  lemma ShortObjectAgrees(tool: string)
    requires RegularParams(tool).Some? && ObjectSchema(tool).Some? && |RegularParams(tool).value| <= 1
    ensures Agrees(RegularParams(tool).value, ObjectSchema(tool).value)
  {
    hide Agrees;
    AgreesListed(RegularParams(tool).value, ObjectSchema(tool).value);
  }

  lemma LongObjectAgrees(tool: string)
    requires RegularParams(tool).Some? && ObjectSchema(tool).Some? && |RegularParams(tool).value| > 1
    ensures Agrees(RegularParams(tool).value, ObjectSchema(tool).value)
  {
    hide Agrees;
    AgreesListed(RegularParams(tool).value, ObjectSchema(tool).value);
  }

  lemma ObjectAgrees(tool: string)
    requires RegularParams(tool).Some? && ObjectSchema(tool).Some?
    ensures Agrees(RegularParams(tool).value, ObjectSchema(tool).value)
  {
    hide Agrees, RegularParams, ObjectSchema;
    if |RegularParams(tool).value| <= 1 { ShortObjectAgrees(tool); } else { LongObjectAgrees(tool); }
  }

  /** The catalogues list exactly the tools that the parser knows, each with the arguments it reads. */
  lemma SchemaAgrees(tool: string)
    ensures KnownTool(tool) <==> Schema(tool).Some?
    ensures KnownTool(tool) ==> Agrees(Params(tool).value, Schema(tool).value)
  {
    hide Agrees, GroupParams, AdminParams, DashboardParams, GuestParams, IdentityParams, SiteParams, RegularParams,
      GroupSchema, AdminSchema, DashboardSchema, GuestSchema, IdentitySchema, SiteSchema, ObjectSchema;
    GroupListed(tool);
    AdminListed(tool);
    DashboardListed(tool);
    GuestListed(tool);
    IdentityListed(tool);
    SiteListed(tool);
    ObjectListed(tool);
    if GroupParams(tool).Some? {
      GroupAgrees(tool);
    } else if AdminParams(tool).Some? {
      AdminAgrees(tool);
    } else if DashboardParams(tool).Some? {
      DashboardAgrees(tool);
    } else if GuestParams(tool).Some? {
      GuestAgrees(tool);
    } else if IdentityParams(tool).Some? {
      IdentityAgrees(tool);
    } else if SiteParams(tool).Some? {
      SiteAgrees(tool);
    } else if RegularParams(tool).Some? {
      ObjectAgrees(tool);
    }
  }

  // ----- schemas and calls

  predicate DistinctItems(items: seq<Value>)
  {
    forall i, j | 0 <= i < j < |items| :: items[i] != items[j]
  }

  /** Each field is an object with exactly two lists of texts. */
  predicate RoleDefinitions(fields: map<string, Value>)
  {
    forall name | name in fields ::
      && fields[name].Object? && fields[name].fields.Keys == {"inherits", "permissions"}
      && AllNonEmptyText(fields[name].fields["inherits"]) && AllNonEmptyText(fields[name].fields["permissions"])
  }

  /** The value is one the property allows. */
  predicate Allows(kind: Kind, value: Value)
  {
    match kind
    case Words => NonEmptyText(value)
    case Truth => value.Bool?
    case OneOf(values) => value.String? && value.text in values
    case WordList => AllNonEmptyText(value)
    case Actions => AllNonEmptyText(value) && value.items != [] && DistinctItems(value.items)
    case WordsOrNull => value.Null? || value.String?
    case RoleMap => value.Object? && RoleDefinitions(value.fields)
    case Positive => value.Number? && value.numeral.Whole? && 1 <= value.numeral.n <= 4294967295
  }

  predicate Meets(arguments: Arguments, property: Property)
  {
    if property.key in arguments then Allows(property.kind, arguments[property.key]) else !property.required
  }

  function PropertyKeys(schema: seq<Property>): set<string>
  {
    set i | 0 <= i < |schema| :: schema[i].key
  }

  /** The schema lists `workspace` as required. */
  predicate NeedsWorkspace(tool: string)
  {
    || tool == "list_audit" || tool == "list_members" || tool == "list_invites" || tool == "list_local_users"
    || tool == "list_ci_trusts" || tool == "create_invite" || tool == "revoke_invite" || tool == "update_member_role"
    || tool == "remove_member" || tool == "create_ci_trust" || tool == "list_groups" || tool == "create_group"
  }

  /** The arguments satisfy the schema of the tool. */
  predicate Conforms(tool: string, arguments: Arguments)
  {
    && Schema(tool).Some?
    && arguments.Keys <= PropertyKeys(Schema(tool).value) + {"workspace", "project"}
    && ("workspace" in arguments ==> NonEmptyText(arguments["workspace"]))
    && ("project" in arguments ==> NonEmptyText(arguments["project"]))
    && (NeedsWorkspace(tool) ==> "workspace" in arguments)
    && forall i | 0 <= i < |Schema(tool).value| :: Meets(arguments, Schema(tool).value[i])
  }

  /** What the parser demands of an argument beyond its property: the safeguard is true, a choice is made
      from the list, and a text that may be null is not empty. */
  predicate Unadvertised(arguments: Arguments, param: Param)
  {
    param.key in arguments ==>
      var value := arguments[param.key];
      && (param.MustBeTrue? ==> value == Bool(true))
      && (param.Choice? ==> NonEmptyText(value) && value.text in param.allowed)
      && (param.Nullable? ==> value != String(""))
  }

  /** What the property demands beyond the parser: no action twice, and role definitions of the right form. */
  predicate Unchecked(arguments: Arguments, property: Property)
  {
    property.key in arguments ==>
      var value := arguments[property.key];
      && (property.kind == Actions && value.Array? ==> DistinctItems(value.items))
      && (property.kind == RoleMap && value.Object? ==> RoleDefinitions(value.fields))
  }

  lemma MatchExact(arguments: Arguments, param: Param, property: Property)
    requires Matches(param, property)
    ensures WellTyped(arguments, param) && Unchecked(arguments, property) <==>
              Meets(arguments, property) && Unadvertised(arguments, param)
  {
    hide RoleDefinitions, DistinctItems;
  }

  lemma SameKeys(params: seq<Param>, schema: seq<Property>)
    requires Agrees(params, schema)
    ensures ReadKeys(params) == PropertyKeys(schema)
  {
    assert forall i | 0 <= i < |params| :: Matches(params[i], schema[i]);
    assert forall i | 0 <= i < |params| :: params[i].key == schema[i].key;
    forall key | key in ReadKeys(params) ensures key in PropertyKeys(schema) {
      var i :| 0 <= i < |params| && params[i].key == key;
      assert schema[i].key == key;
    }
    forall key | key in PropertyKeys(schema) ensures key in ReadKeys(params) {
      var i :| 0 <= i < |schema| && schema[i].key == key;
      assert params[i].key == key;
    }
  }

  /** A call is accepted exactly as advertised, but for six things: the parser does not ask for a
      workspace, does not look for repeated actions and does not look into role definitions; and it does
      ask for safeguards that are true, for choices from the list and for a default role that is not empty. */
  lemma AcceptedAsAdvertised(tool: string, arguments: Arguments)
    requires Schema(tool).Some? && KnownTool(tool)
    ensures && Parse("blobyard_" + tool, Object(arguments)).Ok?
            && (NeedsWorkspace(tool) ==> "workspace" in arguments)
            && (forall i | 0 <= i < |Schema(tool).value| :: Unchecked(arguments, Schema(tool).value[i]))
            <==>
            && Conforms(tool, arguments)
            && forall i | 0 <= i < |Params(tool).value| :: Unadvertised(arguments, Params(tool).value[i])
  {
    hide Schema, Params, AllowedKeys, Parse, WellTyped, Meets, Unchecked, Unadvertised, Matches, NeedsWorkspace;
    var name := "blobyard_" + tool;
    var params, schema := Params(tool).value, Schema(tool).value;
    assert name[|TOOL_PREFIX|..] == tool;
    ParseExact(name, Object(arguments));
    TablesAgree(tool);
    SchemaAgrees(tool);
    SameKeys(params, schema);
    forall i | 0 <= i < |params|
      ensures WellTyped(arguments, params[i]) && Unchecked(arguments, schema[i]) <==>
                Meets(arguments, schema[i]) && Unadvertised(arguments, params[i])
    {
      MatchExact(arguments, params[i], schema[i]);
    }
  }

  /** The difference is real: the schema of `list_members` demands a workspace, and its parser does not. */
  lemma MembersWithoutWorkspace()
    ensures NeedsWorkspace("list_members") && Parse("blobyard_list_members", Object(map[])).Ok?
  {
    hide Params, AllowedKeys;
    assert Params("list_members") == Some([]) by { MembersTakesNothing(); }
    assert "blobyard_list_members" == TOOL_PREFIX + "list_members";
    StripPrefixConcat(TOOL_PREFIX, "list_members");
    var none: Arguments := map[];
    assert none.Keys - AllowedKeys("list_members") == {};
  }

  lemma MembersTakesNothing()
    ensures Params("list_members") == Some([])
  {
    hide DashboardParams, GuestParams, IdentityParams, SiteParams, RegularParams;
  }

  /** The three arguments with a list to choose from, and what another value is told. */
  lemma ChoiceReaders()
    ensures AdminParams("create_invite").value[1] ==
            Choice("role", ["admin", "member", "owner"], "role is not valid")
    ensures AdminParams("update_member_role").value[2] ==
            Choice("role", ["admin", "member", "owner"], "role is not valid")
    ensures SiteParams("grant_yard_access").value[1] ==
            Choice("principal_kind", ["user", "group", "link"],
                   "principal_kind must be user, group, or link; use create_yard_guest_invite for guest access")
  {
  }

  lemma GrantIsSite()
    ensures Params("grant_yard_access") == SiteParams("grant_yard_access")
  {
    hide RegularParams;
  }

  /** Access is granted to users, groups and links; a guest is invited instead. */
  lemma PrincipalsExact(arguments: Arguments)
    requires Parse("blobyard_grant_yard_access", Object(arguments)).Ok?
    ensures "principal_kind" in arguments
    ensures arguments["principal_kind"] in {String("user"), String("group"), String("link")}
  {
    hide Params, AllowedKeys, Parse, SiteParams;
    var name := "blobyard_grant_yard_access";
    assert name[|TOOL_PREFIX|..] == "grant_yard_access";
    ParseExact(name, Object(arguments));
    GrantIsSite();
    ChoiceReaders();
    GrantReads();
    assert WellTyped(arguments, Params("grant_yard_access").value[1]);
  }

  lemma GrantReads()
    ensures SiteParams("grant_yard_access").Some? && |SiteParams("grant_yard_access").value| == 6
  {
  }
}
