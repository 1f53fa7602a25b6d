/** Parsing of tool calls. Each tool's argument readers are listed in the order the source evaluates them;
    the table of allowed keys is kept apart from them, as it is in the source. */
module ToolCalls {
  import opened Text
  import opened Json
  import Order

  type Arguments = map<string, Value>

  datatype Scope = Scope(workspace: Option<string>, project: Option<string>)

  datatype Arg =
    | Text(text: string) | Flag(flag: bool) | Texts(texts: seq<string>) | Count(count: nat) | Tree(value: Value)

  /** A validated call: the tool, the scope overrides and the arguments that were read. */
  datatype ToolCall = ToolCall(tool: string, scope: Scope, arguments: map<string, Arg>)

  /** How one argument is read. */
  datatype Param =
    | Required(key: string)
    | Optional(key: string)
    | Switch(key: string)
    | MustBeTrue(key: string)
    | Choice(key: string, allowed: seq<string>, complaint: string)
    | TextList(key: string)
    | RequiredTextList(key: string)
    | NonEmptyTextList(key: string)
    | Nullable(key: string)
    | ObjectMap(key: string)
    | PositiveCount(key: string)

  // ----- scalar readers

  function OptionalString(arguments: Arguments, key: string): Result<Option<string>, string>
  {
    if key !in arguments then Ok(None)
    else if arguments[key].String? && arguments[key].text != "" then Ok(Some(arguments[key].text))
    else Err(key + " must be a non-empty string")
  }

  function RequiredString(arguments: Arguments, key: string): Result<string, string>
  {
    match OptionalString(arguments, key)
    case Err(e) => Err(e)
    case Ok(None) => Err("missing required argument: " + key)
    case Ok(Some(text)) => Ok(text)
  }

  /** `require_true` and `require_confirmation`: absent, not a boolean and `false` are told apart. */
  function RequireTrue(arguments: Arguments, key: string): Result<(), string>
  {
    if key !in arguments then Err("missing required argument: " + key)
    else match arguments[key]
      case Bool(true) => Ok(())
      case Bool(false) => Err(key + " must be true to confirm this operation")
      case _ => Err(key + " must be a boolean")
  }

  function Strings(items: seq<Value>, complaint: string): Result<seq<string>, string>
  {
    if items == [] then Ok([])
    else if !items[0].String? || items[0].text == "" then Err(complaint)
    else match Strings(items[1..], complaint)
      case Err(e) => Err(e)
      case Ok(rest) => Ok([items[0].text] + rest)
  }

  function StringList(arguments: Arguments, key: string): Result<seq<string>, string>
  {
    if key !in arguments then Ok([])
    else if !arguments[key].Array? then Err(key + " must be an array of strings")
    else Strings(arguments[key].items, key + " must contain non-empty strings")
  }

  /** `None` is an argument that was checked or absent and leaves nothing in the call. */
  function Read(arguments: Arguments, param: Param): Result<Option<Arg>, string>
  {
    var key := param.key;
    match param
    case Required(_) => (match RequiredString(arguments, key) case Ok(t) => Ok(Some(Text(t))) case Err(e) => Err(e))
    case Optional(_) =>
      (match OptionalString(arguments, key)
       case Ok(Some(t)) => Ok(Some(Text(t))) case Ok(None) => Ok(None) case Err(e) => Err(e))
    case Switch(_) =>
      if key !in arguments then Ok(Some(Flag(false)))
      else if arguments[key].Bool? then Ok(Some(Flag(arguments[key].flag)))
      else Err(key + " must be a boolean")
    case MustBeTrue(_) => (match RequireTrue(arguments, key) case Ok(_) => Ok(None) case Err(e) => Err(e))
    case Choice(_, allowed, complaint) =>
      (match RequiredString(arguments, key)
       case Ok(t) => if t in allowed then Ok(Some(Text(t))) else Err(complaint)
       case Err(e) => Err(e))
    case TextList(_) => (match StringList(arguments, key) case Ok(t) => Ok(Some(Texts(t))) case Err(e) => Err(e))
    case RequiredTextList(_) =>
      if key !in arguments then Err("missing required argument: " + key)
      else (match StringList(arguments, key) case Ok(t) => Ok(Some(Texts(t))) case Err(e) => Err(e))
    case NonEmptyTextList(_) =>
      if key !in arguments || !arguments[key].Array? || arguments[key].items == []
      then Err(key + " must be a non-empty string array")
      else (match Strings(arguments[key].items, key + " must contain only non-empty strings")
            case Ok(t) => Ok(Some(Texts(t))) case Err(e) => Err(e))
    case Nullable(_) =>
      if key !in arguments then Err("missing required argument: " + key)
      else (match arguments[key]
            case Null => Ok(None)
            case String(t) => if t != "" then Ok(Some(Text(t))) else Err(key + " must be a non-empty string or null")
            case _ => Err(key + " must be a non-empty string or null"))
    case ObjectMap(_) =>
      if key in arguments && arguments[key].Object? then Ok(Some(Tree(arguments[key])))
      else Err(key + " must be an object")
    case PositiveCount(_) =>
      if key in arguments && arguments[key].Number? && arguments[key].numeral.Whole?
         && 0 < arguments[key].numeral.n < 0x1_0000_0000
      then Ok(Some(Count(arguments[key].numeral.n)))
      else Err("latest must be a positive 32-bit integer")
  }

  function ReadAll(arguments: Arguments, params: seq<Param>): Result<map<string, Arg>, string>
  {
    if params == [] then Ok(map[])
    else match Read(arguments, params[0])
      case Err(e) => Err(e)
      case Ok(first) =>
        match ReadAll(arguments, params[1..])
        case Err(e) => Err(e)
        case Ok(rest) => Ok(if first.Some? then rest[params[0].key := first.value] else rest)
  }

  // ----- the tools, family by family

  const ROLES: seq<string> := ["admin", "member", "owner"]

  function GroupParams(tool: string): Option<seq<Param>>
  {
    match tool
    case "list_groups" => Some([Optional("cursor")])
    case "create_group" => Some([Required("name")])
    case "rename_group" => Some([Required("group_id"), Required("name")])
    case "list_group_members" => Some([Required("group_id"), Optional("cursor")])
    case "add_group_member" => Some([Required("group_id"), Required("user_id")])
    case "remove_group_member" => Some([MustBeTrue("confirm"), Required("group_id"), Required("user_id")])
    case "deactivate_group" => Some([MustBeTrue("confirm"), Required("group_id")])
    case _ => None
  }

  function GroupKeys(tool: string): set<string>
  {
    match tool
    case "list_groups" => {"cursor"}
    case "create_group" => {"name"}
    case "rename_group" => {"group_id", "name"}
    case "list_group_members" => {"cursor", "group_id"}
    case "add_group_member" => {"group_id", "user_id"}
    case "remove_group_member" => {"confirm", "group_id", "user_id"}
    case "deactivate_group" => {"confirm", "group_id"}
    case _ => {}
  }

  function AdminParams(tool: string): Option<seq<Param>>
  {
    match tool
    case "list_audit" => Some([Optional("cursor")])
    case "list_members" => Some([])
    case "list_invites" => Some([])
    case "create_invite" => Some([Required("email"), Choice("role", ROLES, "role is not valid")])
    case "list_local_users" => Some([])
    case "list_api_tokens" => Some([])
    case "list_ci_trusts" => Some([])
    case "create_ci_trust" => Some([
      Required("repository"), Required("workflow_path"), Required("workflow_ref"), Required("allowed_ref_glob"),
      NonEmptyTextList("allowed_actions"), Optional("environment")])
    case "list_cli_sessions" => Some([])
    case "revoke_invite" => Some([MustBeTrue("confirm"), Required("invite_id")])
    case "update_member_role" =>
      Some([MustBeTrue("confirm"), Required("user_id"), Choice("role", ROLES, "role is not valid")])
    case "remove_member" => Some([MustBeTrue("confirm"), Required("user_id")])
    case "deactivate_local_user" => Some([MustBeTrue("confirm"), Required("user_id")])
    case "revoke_api_token" => Some([MustBeTrue("confirm"), Required("token_id")])
    case "revoke_ci_trust" => Some([MustBeTrue("confirm"), Required("trust_id")])
    case "revoke_cli_session" => Some([MustBeTrue("confirm"), Required("session_id")])
    case _ => None
  }

  function AdminKeys(tool: string): set<string>
  {
    match tool
    case "list_audit" => {"cursor"}
    case "create_invite" => {"email", "role"}
    case "revoke_invite" => {"confirm", "invite_id"}
    case "update_member_role" => {"confirm", "role", "user_id"}
    case "remove_member" => {"confirm", "user_id"}
    case "deactivate_local_user" => {"confirm", "user_id"}
    case "revoke_api_token" => {"confirm", "token_id"}
    case "create_ci_trust" =>
      {"allowed_actions", "allowed_ref_glob", "environment", "repository", "workflow_path", "workflow_ref"}
    case "revoke_ci_trust" => {"confirm", "trust_id"}
    case "revoke_cli_session" => {"confirm", "session_id"}
    case _ => {}
  }

  function DashboardParams(tool: string): Option<seq<Param>>
  {
    match tool
    case "get_billing" => Some([])
    case "rename_workspace" => Some([Required("name")])
    case "get_account_export" => Some([])
    case "request_account_export" => Some([])
    case "get_account_deletion" => Some([])
    case "get_retention_overview" => Some([])
    case _ => None
  }

  function DashboardKeys(tool: string): set<string>
  {
    if tool == "rename_workspace" then {"name"} else {}
  }

  function GuestParams(tool: string): Option<seq<Param>>
  {
    match tool
    case "list_yard_guest_invites" => Some([Required("yard"), Optional("cursor")])
    case "create_yard_guest_invite" => Some([
      Required("yard"), Required("email"), TextList("roles"), Optional("environment_id"), Optional("expires_at")])
    case "revoke_yard_guest_invite" => Some([Required("yard"), Required("invitation_id")])
    case _ => None
  }

  function GuestKeys(tool: string): set<string>
  {
    match tool
    case "list_yard_guest_invites" => {"yard", "cursor"}
    case "create_yard_guest_invite" => {"yard", "email", "roles", "environment_id", "expires_at"}
    case "revoke_yard_guest_invite" => {"yard", "invitation_id"}
    case _ => {}
  }

  const PRINCIPALS: seq<string> := ["user", "group", "link"]

  const PRINCIPAL_COMPLAINT :=
    "principal_kind must be user, group, or link; use create_yard_guest_invite for guest access"

  function IdentityParams(tool: string): Option<seq<Param>>
  {
    match tool
    case "list_yard_management_roles" => Some([Required("yard"), Optional("cursor")])
    case "set_yard_management_role" => Some([Required("yard"), Required("user_id"), Required("role")])
    case "revoke_yard_management_role" => Some([Required("yard"), Required("user_id")])
    case "get_yard_application_policy" => Some([Required("yard")])
    case "set_yard_application_policy" =>
      Some([Required("yard"), Required("source_manifest_digest"), Nullable("default_role"), ObjectMap("roles")])
    case "set_yard_access_roles" => Some([Required("yard"), Required("grant_id"), RequiredTextList("roles")])
    case _ => None
  }

  function SiteParams(tool: string): Option<seq<Param>>
  {
    match tool
    case "deploy_web_yard" => Some([
      MustBeTrue("public"), Required("directory"), Required("yard"), Switch("spa"), Switch("clean_urls")])
    case "list_web_yards" => Some([])
    case "list_yard_deploys" => Some([Required("yard")])
    case "list_yard_environments" => Some([Required("yard")])
    case "get_yard_access" => Some([Required("yard")])
    case "set_yard_visibility" => Some([Required("yard"), Required("visibility")])
    case "grant_yard_access" => Some([
      Required("yard"), Choice("principal_kind", PRINCIPALS, PRINCIPAL_COMPLAINT), Required("principal_id"),
      TextList("roles"), Optional("environment_id"), Optional("expires_at")])
    case "revoke_yard_access" => Some([Required("yard"), Required("grant_id")])
    case "list_yard_sessions" => Some([Required("yard")])
    case "revoke_yard_session" => Some([Required("yard"), Required("session_id")])
    case "rollback_web_yard" => Some([Required("yard"), Optional("deploy_id")])
    case "delete_web_yard" => Some([MustBeTrue("confirm"), Required("yard")])
    case _ => None
  }

  function YardParams(tool: string): Option<seq<Param>>
  {
    if IdentityParams(tool).Some? then IdentityParams(tool) else SiteParams(tool)
  }

  function IdentityKeys(tool: string): set<string>
  {
    match tool
    case "get_yard_application_policy" => {"yard"}
    case "list_yard_management_roles" => {"yard", "cursor"}
    case "set_yard_management_role" => {"yard", "user_id", "role"}
    case "revoke_yard_management_role" => {"yard", "user_id"}
    case "set_yard_application_policy" => {"yard", "source_manifest_digest", "default_role", "roles"}
    case "set_yard_access_roles" => {"yard", "grant_id", "roles"}
    case _ => {}
  }

  function SiteKeys(tool: string): set<string>
  {
    match tool
    case "deploy_web_yard" => {"directory", "yard", "spa", "clean_urls", "public"}
    case "list_yard_deploys" => {"yard"}
    case "list_yard_environments" => {"yard"}
    case "get_yard_access" => {"yard"}
    case "list_yard_sessions" => {"yard"}
    case "set_yard_visibility" => {"yard", "visibility"}
    case "grant_yard_access" => {"yard", "principal_kind", "principal_id", "roles", "environment_id", "expires_at"}
    case "revoke_yard_access" => {"yard", "grant_id"}
    case "revoke_yard_session" => {"yard", "session_id"}
    case "delete_web_yard" => {"yard", "confirm"}
    case "rollback_web_yard" => {"yard", "deploy_id"}
    case _ => {}
  }

  /** One table in the source, shown in the two parts its parser has. */
  function YardKeys(tool: string): set<string>
  {
    if IdentityParams(tool).Some? then IdentityKeys(tool) else SiteKeys(tool)
  }

  function RegularParams(tool: string): Option<seq<Param>>
  {
    match tool
    case "whoami" => Some([])
    case "list_workspaces" => Some([])
    case "create_workspace" => Some([Required("name")])
    case "list_projects" => Some([])
    case "list_objects" => Some([Optional("prefix"), Switch("versions")])
    case "get_retention" => Some([])
    case "list_inboxes" => Some([])
    case "list_shares" => Some([])
    case "list_previews" => Some([])
    case "create_project" => Some([Required("name")])
    case "upload_file" => Some([Required("source"), Optional("path"), Switch("include_ignored")])
    case "download_file" => Some([Required("uri"), Required("output"), Switch("force")])
    case "delete_object" => Some([Required("uri")])
    case "create_share" => Some([Required("target"), Optional("expires"), Optional("notify")])
    case "revoke_share" => Some([Required("share_id")])
    case "create_preview" => Some([Required("directory"), Optional("expires")])
    case "revoke_preview" => Some([Required("preview_id")])
    case "create_inbox" => Some([Required("name"), Optional("expires")])
    case "revoke_inbox" => Some([Required("inbox_id")])
    case "set_retention" => Some([PositiveCount("latest"), Optional("branch"), Optional("path")])
    case "clear_retention" => Some([])
    case _ => None
  }

  function RegularKeys(tool: string): set<string>
  {
    match tool
    case "create_workspace" => {"name"}
    case "create_project" => {"name"}
    case "list_objects" => {"prefix", "versions"}
    case "upload_file" => {"source", "path", "include_ignored"}
    case "download_file" => {"uri", "output", "force"}
    case "delete_object" => {"uri"}
    case "create_share" => {"target", "expires", "notify"}
    case "revoke_share" => {"share_id"}
    case "create_preview" => {"directory", "expires"}
    case "revoke_preview" => {"preview_id"}
    case "create_inbox" => {"name", "expires"}
    case "revoke_inbox" => {"inbox_id"}
    case "set_retention" => {"latest", "branch", "path"}
    case _ => {}
  }

  /** The dispatch order: administration (groups first), dashboard, Yard (guest invitations first), the rest. */
  datatype Family = Group | Admin | Dashboard | Guest | Yard | Regular

  function FamilyOf(tool: string): Family
  {
    if GroupParams(tool).Some? then Group
    else if AdminParams(tool).Some? then Admin
    else if DashboardParams(tool).Some? then Dashboard
    else if GuestParams(tool).Some? then Guest
    else if YardParams(tool).Some? then Yard
    else Regular
  }

  function ParamsOf(family: Family, tool: string): Option<seq<Param>>
  {
    match family
    case Group => GroupParams(tool)
    case Admin => AdminParams(tool)
    case Dashboard => DashboardParams(tool)
    case Guest => GuestParams(tool)
    case Yard => YardParams(tool)
    case Regular => RegularParams(tool)
  }

  function KeysOf(family: Family, tool: string): set<string>
  {
    match family
    case Group => GroupKeys(tool)
    case Admin => AdminKeys(tool)
    case Dashboard => DashboardKeys(tool)
    case Guest => GuestKeys(tool)
    case Yard => YardKeys(tool)
    case Regular => RegularKeys(tool)
  }

  function Params(tool: string): Option<seq<Param>> { ParamsOf(FamilyOf(tool), tool) }

  function AllowedKeys(tool: string): set<string> { KeysOf(FamilyOf(tool), tool) + {"workspace", "project"} }

  // ----- parsing

  function ParseScope(arguments: Arguments): Result<Scope, string>
  {
    match (OptionalString(arguments, "workspace"), OptionalString(arguments, "project"))
    case (Err(e), _) => Err(e)
    case (Ok(_), Err(e)) => Err(e)
    case (Ok(workspace), Ok(project)) => Ok(Scope(workspace, project))
  }

  const TOOL_PREFIX := "blobyard_"

  /** `ToolCall::parse`. */
  function Parse(name: string, value: Value): Result<ToolCall, string>
  {
    match StripPrefix(name, TOOL_PREFIX)
    case None => Err("unknown tool: " + name)
    case Some(tool) =>
      if !value.Object? then Err("tool arguments must be an object")
      else match ParseScope(value.fields)
        case Err(e) => Err(e)
        case Ok(scope) => ParseTool(tool, value.fields, scope)
  }

  function ParseTool(tool: string, arguments: Arguments, scope: Scope): Result<ToolCall, string>
  {
    var unexpected := arguments.Keys - AllowedKeys(tool);
    if unexpected != {} then Err("unexpected argument: " + Order.Least(unexpected))
    else match Params(tool)
      case None => Err("unknown tool: " + tool)
      case Some(params) =>
        match ReadAll(arguments, params)
        case Err(e) => Err(e)
        case Ok(read) => Ok(ToolCall(tool, scope, read))
  }
}
