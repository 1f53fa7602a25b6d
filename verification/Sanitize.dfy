/** Redaction of backend output before it enters model context. */
module Sanitize {
  import opened Text
  import opened Json

  const REDACTED := "[REDACTED]"

  datatype Capability = NoCapability | Share | Preview | Inbox | GuestInvitation

  function LowerChar(c: char): char
  {
    if IsUpper(c) then ((c as int) + 32) as char else c
  }

  /** `to_ascii_lowercase`. */
  function Lower(s: string): (r: string)
    ensures |r| == |s|
  {
    seq(|s|, i requires 0 <= i < |s| => LowerChar(s[i]))
  }

  /** Lower case, with `-` and `.` read as `_`. */
  function NormalKey(key: string): (r: string)
    ensures |r| == |key|
  {
    seq(|key|, i requires 0 <= i < |key| =>
      var c := LowerChar(key[i]); if c == '-' || c == '.' then '_' else c)
  }

  function PublicCapability(key: string): Option<Capability>
  {
    if key == "shareurl" || key == "share_url" then Some(Share)
    else if key == "previewurl" || key == "preview_url" then Some(Preview)
    else if key == "inboxurl" || key == "inbox_url" then Some(Inbox)
    else None
  }

  const SENSITIVE_PARTS: seq<string> := [
    "token", "secret", "password", "authorization", "cookie", "oauth_code", "confirmation_code",
    "confirmationcode", "signed_url", "presigned_url", "capability"]

  predicate SensitiveKey(key: string, issued: Capability)
  {
    var key := NormalKey(key);
    match PublicCapability(key)
    case Some(capability) => capability != issued
    case None =>
      || key in ["downloadurl", "download_url", "uploadurl", "upload_url", "otp"]
      || exists part | part in SENSITIVE_PARTS :: Contains(key, part)
  }

  const SENSITIVE_MARKERS: seq<string> := [
    "x-amz-signature=", "x-amz-credential=", "signature=", "token=", "secret="]

  predicate SensitiveUrl(text: string)
  {
    match SplitOnce(text, '?')
    case None => false
    case Some((_, query)) => exists marker | marker in SENSITIVE_MARKERS :: Contains(Lower(query), marker)
  }

  lemma MarkerIsNotSensitive()
    ensures !SensitiveUrl(REDACTED)
  {
    assert '?' !in REDACTED;
  }

  predicate IssuedInvitation(key: string, value: Value, issued: Capability)
  {
    issued == GuestInvitation && (key == "invitationUrl" || key == "invitation_url") && value.String?
  }

  /** How one field of an object is treated. */
  datatype Treatment = Keep | Hide | Descend

  function Treat(key: string, value: Value, issued: Capability, root: bool): Treatment
  {
    if root && IssuedInvitation(key, value, issued) then Keep
    else if SensitiveKey(key, issued) then Hide
    else Descend
  }

  /** The sanitised form of a value: what the in-place rewriting leaves behind. */
  function Sanitized(value: Value, issued: Capability, root: bool): Value
    decreases value, 0
  {
    match value
    case Array(items) =>
      Array(seq(|items|, i requires 0 <= i < |items| => Sanitized(items[i], issued, false)))
    case Object(fields) =>
      Object(map key | key in fields :: SanitizedField(key, fields[key], issued, root))
    case String(text) => if SensitiveUrl(text) then String(REDACTED) else value
    case _ => value
  }

  function SanitizedField(key: string, item: Value, issued: Capability, root: bool): Value
    decreases item, 1
  {
    match Treat(key, item, issued, root)
    case Keep => item
    case Hide => String(REDACTED)
    case Descend => Sanitized(item, issued, false)
  }

  /** `sanitize_value`: the recursion and its loops, on values instead of in place. */
  method SanitizeValue(value: Value, issued: Capability, root: bool) returns (out: Value)
    ensures out == Sanitized(value, issued, root)
    decreases value, 1
  {
    hide SensitiveUrl, SensitiveKey;
    match value {
      case Array(items) =>
        var done := [];
        for i := 0 to |items|
          invariant |done| == i
          invariant forall k | 0 <= k < i :: done[k] == Sanitized(items[k], issued, false)
        {
          var item := SanitizeValue(items[i], issued, false);
          done := done + [item];
        }
        out := Array(done);
      case Object(_) =>
        out := SanitizeFields(value, issued, root);
      case String(text) =>
        out := if SensitiveUrl(text) then String(REDACTED) else value;
      case _ =>
        out := value;
    }
  }

  method SanitizeFields(value: Value, issued: Capability, root: bool) returns (out: Value)
    requires value.Object?
    ensures out == Sanitized(value, issued, root)
    decreases value, 0
  {
    hide SanitizedField;
    var fields := value.fields;
    var done, remaining := fields, fields.Keys;
    while remaining != {}
      invariant remaining <= done.Keys == fields.Keys
      invariant forall key | key in remaining :: done[key] == fields[key]
      invariant forall key | key in fields && key !in remaining ::
                  done[key] == SanitizedField(key, fields[key], issued, root)
    {
      var key :| key in remaining;
      var item := SanitizeField(key, fields[key], issued, root);
      done := done[key := item];
      remaining := remaining - {key};
    }
    out := Object(done);
  }

  method SanitizeField(key: string, item: Value, issued: Capability, root: bool) returns (out: Value)
    ensures out == SanitizedField(key, item, issued, root)
    decreases item, 2
  {
    hide Sanitized;
    if root && IssuedInvitation(key, item, issued) {
      out := item;
    } else if SensitiveKey(key, issued) {
      out := String(REDACTED);
    } else {
      out := SanitizeValue(item, issued, false);
    }
  }
}
