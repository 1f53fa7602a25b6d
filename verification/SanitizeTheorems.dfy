/** What redaction guarantees for every JSON tree, at every depth and for every issued capability. */
module SanitizeTheorems {
  import opened Text
  import opened Json
  import opened Sanitize

  // ----- the invitation field is not itself a sensitive key

  lemma ContainsLetters(s: string, needle: string, c: char)
    requires Contains(s, needle) && c in needle
    ensures c in s
  {
    var i :| 0 <= i <= |s| && needle <= s[i..];
    var j :| 0 <= j < |needle| && needle[j] == c;
    assert s[i + j] == c;
  }

  /** A letter that is in no spelling of the invitation field. */
  function ForeignLetter(part: string): char
  {
    if 'k' in part then 'k' else if 's' in part then 's' else if 'c' in part then 'c' else 'h'
  }

  lemma PartsHoldForeignLetter(part: string)
    requires part in SENSITIVE_PARTS
    ensures ForeignLetter(part) in part
  {
    assert "token"[2] == 'k' && "secret"[0] == 's' && "password"[2] == 's' && "authorization"[3] == 'h';
    assert "cookie"[3] == 'k' && "oauth_code"[6] == 'c' && "confirmation_code"[0] == 'c';
    assert "confirmationcode"[0] == 'c' && "signed_url"[0] == 's';
    assert "presigned_url"[3] == 's' && "capability"[0] == 'c';
  }

  lemma NotSensitiveWithout(normal: string)
    requires 'k' !in normal && 's' !in normal && 'c' !in normal && 'h' !in normal
    ensures forall part | part in SENSITIVE_PARTS :: !Contains(normal, part)
  {
    hide Contains;
    forall part | part in SENSITIVE_PARTS ensures !Contains(normal, part) {
      PartsHoldForeignLetter(part);
      if Contains(normal, part) { ContainsLetters(normal, part, ForeignLetter(part)); }
    }
  }

  lemma InvitationKeysNotSensitive(key: string)
    requires key == "invitationUrl" || key == "invitation_url"
    ensures !SensitiveKey(key, GuestInvitation)
  {
    hide Contains;
    var normal := NormalKey(key);
    assert normal == "invitationurl" || normal == "invitation_url";
    NotSensitiveWithout(normal);
  }

  lemma InvitationShape(key: string, v: Value, w: Value, issued: Capability)
    requires IssuedInvitation(key, v, issued)
    ensures v.String? && !SensitiveKey(key, issued)
    ensures IssuedInvitation(key, w, issued) <==> w.String?
  {
    hide SensitiveKey;
    InvitationKeysNotSensitive(key);
  }

  lemma KindKept(value: Value, issued: Capability, root: bool)
    ensures Sanitized(value, issued, root).String? <==> value.String?
  {
  }

  // ----- idempotence

  /** Sanitising twice is sanitising once. */
  lemma {:induction false} Idempotent(value: Value, issued: Capability, root: bool)
    ensures Sanitized(Sanitized(value, issued, root), issued, root) == Sanitized(value, issued, root)
    decreases value, 0
  {
    hide SensitiveUrl, SensitiveKey, SanitizedField;
    MarkerIsNotSensitive();
    var once := Sanitized(value, issued, root);
    match value {
      case Array(items) =>
        forall i | 0 <= i < |items| ensures Sanitized(once.items[i], issued, false) == once.items[i] {
          Idempotent(items[i], issued, false);
        }
      case Object(fields) =>
        forall key | key in fields
          ensures SanitizedField(key, once.fields[key], issued, root) == once.fields[key]
        {
          FieldIdempotent(key, fields[key], issued, root);
        }
      case _ =>
    }
  }

  lemma {:induction false} FieldIdempotent(key: string, item: Value, issued: Capability, root: bool)
    ensures SanitizedField(key, SanitizedField(key, item, issued, root), issued, root) ==
            SanitizedField(key, item, issued, root)
    decreases item, 1
  {
    hide SensitiveKey, Sanitized;
    Idempotent(item, issued, false);
    KindKept(item, issued, false);
  }

  // ----- noninterference

  predicate Opaque(text: string)
  {
    SensitiveUrl(text) || text == REDACTED
  }

  /** Equal except beneath sensitive keys and in which sensitive URL a string holds. */
  predicate Agree(v: Value, w: Value, issued: Capability, root: bool)
    decreases v, 0
  {
    match (v, w)
    case (Array(a), Array(b)) =>
      |a| == |b| && forall i | 0 <= i < |a| :: Agree(a[i], b[i], issued, false)
    case (Object(a), Object(b)) =>
      a.Keys == b.Keys && forall key | key in a :: AgreeField(key, a[key], b[key], issued, root)
    case (String(a), String(b)) => a == b || (Opaque(a) && Opaque(b))
    case _ => v == w
  }

  predicate AgreeField(key: string, v: Value, w: Value, issued: Capability, root: bool)
    decreases v, 1
  {
    if root && (IssuedInvitation(key, v, issued) || IssuedInvitation(key, w, issued)) then v == w
    else SensitiveKey(key, issued) || Agree(v, w, issued, false)
  }

  /** Two values sanitise to the same value exactly when they agree on everything but hidden data. */
  lemma {:induction false} Noninterference(v: Value, w: Value, issued: Capability, root: bool)
    ensures Sanitized(v, issued, root) == Sanitized(w, issued, root) <==> Agree(v, w, issued, root)
    decreases v, 1
  {
    hide SensitiveUrl, SensitiveKey;
    MarkerIsNotSensitive();
    match (v, w) {
      case (Array(_), Array(_)) => ItemsNoninterference(v, w, issued, root);
      case (Object(_), Object(_)) => FieldsNoninterference(v, w, issued, root);
      case _ =>
    }
  }

  lemma {:induction false} ItemsNoninterference(v: Value, w: Value, issued: Capability, root: bool)
    requires v.Array? && w.Array?
    ensures Sanitized(v, issued, root) == Sanitized(w, issued, root) <==> Agree(v, w, issued, root)
    decreases v, 0
  {
    hide SensitiveUrl, SensitiveKey;
    var a, b := Sanitized(v, issued, root).items, Sanitized(w, issued, root).items;
    if |v.items| == |w.items| {
      forall i | 0 <= i < |a| ensures a[i] == b[i] <==> Agree(v.items[i], w.items[i], issued, false) {
        Noninterference(v.items[i], w.items[i], issued, false);
      }
      assert a == b <==> forall i | 0 <= i < |a| :: a[i] == b[i];
    }
  }

  lemma {:induction false} FieldsNoninterference(v: Value, w: Value, issued: Capability, root: bool)
    requires v.Object? && w.Object?
    ensures Sanitized(v, issued, root) == Sanitized(w, issued, root) <==> Agree(v, w, issued, root)
    decreases v, 0
  {
    hide SensitiveUrl, SensitiveKey, AgreeField, SanitizedField;
    var a, b := Sanitized(v, issued, root).fields, Sanitized(w, issued, root).fields;
    assert a.Keys == v.fields.Keys && b.Keys == w.fields.Keys;
    if v.fields.Keys == w.fields.Keys {
      forall key | key in v.fields
        ensures a[key] == b[key] <==> AgreeField(key, v.fields[key], w.fields[key], issued, root)
      {
        FieldNoninterference(key, v.fields[key], w.fields[key], issued, root);
      }
      assert a == b <==> forall key | key in a :: a[key] == b[key];
    }
  }

  lemma {:induction false} FieldNoninterference(key: string, v: Value, w: Value, issued: Capability, root: bool)
    ensures SanitizedField(key, v, issued, root) == SanitizedField(key, w, issued, root) <==>
              AgreeField(key, v, w, issued, root)
    decreases v, 2
  {
    hide SensitiveKey, IssuedInvitation, Agree, Sanitized;
    Noninterference(v, w, issued, false);
    KindKept(v, issued, false);
    KindKept(w, issued, false);
    if IssuedInvitation(key, v, issued) { InvitationShape(key, v, w, issued); }
    if IssuedInvitation(key, w, issued) { InvitationShape(key, w, v, issued); }
  }

  // ----- every position of the tree

  lemma {:induction false} AtAppend(value: Value, p: seq<Selector>, q: seq<Selector>)
    ensures At(value, p + q) == if At(value, p).Some? then At(At(value, p).value, q) else None
  {
    if p == [] {
      assert p + q == q;
    } else {
      assert (p + q)[0] == p[0] && (p + q)[1..] == p[1..] + q;
      match (value, p[0]) {
        case (Array(items), Item(i)) => if i < |items| { AtAppend(items[i], p[1..], q); }
        case (Object(fields), Field(key)) => if key in fields { AtAppend(fields[key], p[1..], q); }
        case _ =>
      }
    }
  }

  /** The position is a field that redaction overwrites. */
  predicate Hidden(value: Value, path: seq<Selector>, issued: Capability, root: bool)
  {
    && path != [] && path[|path| - 1].Field?
    && var item := At(value, path);
       item.Some? && Treat(path[|path| - 1].key, item.value, issued, root && |path| == 1) == Hide
  }

  /** The position is the freshly issued invitation URL of a root object. */
  predicate Kept(value: Value, path: seq<Selector>, issued: Capability, root: bool)
  {
    && root && |path| == 1 && path[0].Field?
    && var item := At(value, path);
       item.Some? && IssuedInvitation(path[0].key, item.value, issued)
  }

  /** No field on the way to the position, the last one included, is overwritten. */
  predicate Open(value: Value, path: seq<Selector>, issued: Capability, root: bool)
    decreases |path|
  {
    path == [] || (Open(value, path[..|path| - 1], issued, root) && !Hidden(value, path, issued, root))
  }

  lemma OpenParent(value: Value, path: seq<Selector>, step: Selector, issued: Capability, root: bool)
    ensures Open(value, path + [step], issued, root) <==>
              Open(value, path, issued, root) && !Hidden(value, path + [step], issued, root)
  {
    hide Hidden;
    assert (path + [step])[..|path|] == path;
  }

  lemma HiddenBelow(value: Value, step: Selector, rest: seq<Selector>, issued: Capability, root: bool, child: Value)
    requires rest != [] && At(value, [step]) == Some(child) && Hidden(child, rest, issued, false)
    ensures Hidden(value, [step] + rest, issued, root)
  {
    hide Treat;
    AtAppend(value, [step], rest);
  }

  lemma {:induction false} OpenBelow(
      value: Value, step: Selector, rest: seq<Selector>, issued: Capability, root: bool, child: Value)
    requires Open(value, [step] + rest, issued, root) && At(value, [step]) == Some(child)
    ensures Open(child, rest, issued, false) && !Hidden(value, [step], issued, root)
    decreases |rest|
  {
    hide Hidden;
    if rest == [] {
      assert [step] + rest == [step];
    } else {
      var init := rest[..|rest| - 1];
      assert ([step] + rest)[..|rest|] == [step] + init;
      OpenBelow(value, step, init, issued, root, child);
      if Hidden(child, rest, issued, false) { HiddenBelow(value, step, rest, issued, root, child); }
    }
  }

  /** An open position survives, holding the sanitised form of what it held. */
  lemma {:induction false} OpenPosition(value: Value, path: seq<Selector>, issued: Capability, root: bool)
    requires Open(value, path, issued, root)
    ensures At(Sanitized(value, issued, root), path) ==
            match At(value, path)
            case None => None
            case Some(x) =>
              Some(if Kept(value, path, issued, root) then x else Sanitized(x, issued, root && path == []))
    decreases |path|
  {
    hide SensitiveUrl, SensitiveKey, Open;
    if path != [] {
      var step, rest := path[0], path[1..];
      assert path == [step] + rest;
      match (value, step) {
        case (Array(items), Item(i)) =>
          if i < |items| {
            OpenBelow(value, step, rest, issued, root, items[i]);
            OpenPosition(items[i], rest, issued, false);
          }
        case (Object(fields), Field(key)) =>
          if key in fields {
            OpenBelow(value, step, rest, issued, root, fields[key]);
            OpenPosition(fields[key], rest, issued, false);
          }
        case _ =>
      }
    }
  }

  /** A hidden field with an open parent holds the marker. */
  lemma HiddenPosition(value: Value, path: seq<Selector>, step: Selector, issued: Capability, root: bool)
    requires Open(value, path, issued, root) && Hidden(value, path + [step], issued, root)
    ensures At(Sanitized(value, issued, root), path + [step]) == Some(String(REDACTED))
  {
    hide SensitiveUrl, SensitiveKey, Open;
    OpenPosition(value, path, issued, root);
    AtAppend(value, path, [step]);
    AtAppend(Sanitized(value, issued, root), path, [step]);
  }

  /** The sanitised tree has no position of its own: each comes from the input, through open fields. */
  lemma {:induction false} OutputPosition(value: Value, path: seq<Selector>, issued: Capability, root: bool)
    requires At(Sanitized(value, issued, root), path).Some?
    ensures At(value, path).Some?
    ensures path != [] ==> Open(value, path[..|path| - 1], issued, root)
    decreases |path|
  {
    hide SensitiveUrl, SensitiveKey, Open, Hidden;
    if path != [] {
      var parent, step := path[..|path| - 1], path[|path| - 1];
      assert path == parent + [step];
      var out := Sanitized(value, issued, root);
      AtAppend(out, parent, [step]);
      AtAppend(value, parent, [step]);
      OutputPosition(value, parent, issued, root);
      ParentOpen(value, parent, step, issued, root);
      OpenPosition(value, parent, issued, root);
    }
  }

  lemma ParentOpen(value: Value, parent: seq<Selector>, step: Selector, issued: Capability, root: bool)
    requires At(Sanitized(value, issued, root), parent + [step]).Some?
    requires parent != [] ==> Open(value, parent[..|parent| - 1], issued, root)
    ensures Open(value, parent, issued, root)
  {
    hide Sanitized, Treat;
    AtAppend(Sanitized(value, issued, root), parent, [step]);
    if parent != [] {
      var above, last := parent[..|parent| - 1], parent[|parent| - 1];
      assert parent == above + [last];
      OpenParent(value, above, last, issued, root);
      if Hidden(value, parent, issued, root) { HiddenPosition(value, above, last, issued, root); }
    }
  }

  /** Same kind of value, same array length, same object keys, same leaf unless it was a sensitive URL. */
  predicate SameShape(before: Value, after: Value)
  {
    match (before, after)
    case (Array(a), Array(b)) => |a| == |b|
    case (Object(a), Object(b)) => a.Keys == b.Keys
    case (String(a), String(b)) => b == if SensitiveUrl(a) then REDACTED else a
    case _ => before == after
  }

  /** At every position of the sanitised tree: the position existed before; a sensitive field holds the
      marker; the issued invitation URL is untouched; anything else kept its shape. So a sensitive URL
      survives nowhere but in a root-level issued invitation. */
  lemma EveryPosition(value: Value, path: seq<Selector>, issued: Capability)
    requires At(Sanitized(value, issued, true), path).Some?
    ensures At(value, path).Some?
    ensures var before, after := At(value, path).value, At(Sanitized(value, issued, true), path).value;
            && (Hidden(value, path, issued, true) ==> after == String(REDACTED))
            && (Kept(value, path, issued, true) ==> after == before)
            && (!Hidden(value, path, issued, true) && !Kept(value, path, issued, true) ==> SameShape(before, after))
            && (after.String? && SensitiveUrl(after.text) ==> Kept(value, path, issued, true))
  {
    hide SensitiveUrl, SensitiveKey, Open;
    MarkerIsNotSensitive();
    OutputPosition(value, path, issued, true);
    if path == [] {
      SanitizedShape(value, issued, true);
    } else {
      var parent, step := path[..|path| - 1], path[|path| - 1];
      assert path == parent + [step];
      if Hidden(value, path, issued, true) {
        HiddenPosition(value, parent, step, issued, true);
      } else {
        OpenParent(value, parent, step, issued, true);
        OpenPosition(value, path, issued, true);
        SanitizedShape(At(value, path).value, issued, false);
      }
    }
  }

  lemma SanitizedShape(value: Value, issued: Capability, root: bool)
    ensures SameShape(value, Sanitized(value, issued, root))
    ensures var after := Sanitized(value, issued, root); after.String? ==> !SensitiveUrl(after.text)
  {
    hide SensitiveUrl, SensitiveKey;
    MarkerIsNotSensitive();
  }
}
