/** Which keys and which texts are hidden, told by how they are spelled. */
module SanitizeKeys {
  import opened Text
  import opened Json
  import opened Sanitize
  import opened SanitizeTheorems

  // ----- spellings

  /** `c` is the capital of the small letter `d`. */
  ghost predicate Capital(c: char, d: char)
  {
    'a' <= d <= 'z' && c as int + 32 == d as int
  }

  /** The text is the word in any mixture of small and capital letters. */
  ghost predicate Cased(text: string, word: string)
  {
    |text| == |word| && forall i | 0 <= i < |text| :: text[i] == word[i] || Capital(text[i], word[i])
  }

  /** The text is the word in any case, each underscore written as `_`, `-` or `.`. */
  ghost predicate Spelled(text: string, word: string)
  {
    |text| == |word| && forall i | 0 <= i < |text| ::
      text[i] == word[i] || Capital(text[i], word[i]) || (word[i] == '_' && (text[i] == '-' || text[i] == '.'))
  }

  /** Some stretch of the text spells the word. */
  ghost predicate Holds(text: string, word: string)
  {
    exists i, j | 0 <= i <= j <= |text| :: Spelled(text[i..j], word)
  }

  /** A word of small letters and underscores. */
  predicate Word(word: string)
  {
    forall i | 0 <= i < |word| :: 'a' <= word[i] <= 'z' || word[i] == '_'
  }

  lemma SpelledExact(text: string, word: string)
    requires Word(word)
    ensures Spelled(text, word) <==> NormalKey(text) == word
  {
    if Spelled(text, word) {
      forall i | 0 <= i < |text| ensures NormalKey(text)[i] == word[i] {
        assert text[i] == word[i] || Capital(text[i], word[i]) || word[i] == '_';
      }
    }
    if NormalKey(text) == word {
      forall i | 0 <= i < |text|
        ensures || text[i] == word[i] || Capital(text[i], word[i])
                || (word[i] == '_' && (text[i] == '-' || text[i] == '.'))
      {
        assert NormalKey(text)[i] == word[i];
      }
    }
  }

  lemma NormalSlice(text: string, i: nat, j: nat)
    requires i <= j <= |text|
    ensures NormalKey(text[i..j]) == NormalKey(text)[i..j]
  {
  }

  lemma HoldsExact(text: string, word: string)
    requires Word(word)
    ensures Holds(text, word) <==> Contains(NormalKey(text), word)
  {
    hide NormalKey, Spelled, Word;
    var normal := NormalKey(text);
    if Holds(text, word) {
      var i, j :| 0 <= i <= j <= |text| && Spelled(text[i..j], word);
      SpelledExact(text[i..j], word);
      NormalSlice(text, i, j);
      assert word <= normal[i..];
    }
    if Contains(normal, word) {
      var i :| 0 <= i <= |normal| && word <= normal[i..];
      var j := i + |word|;
      assert normal[i..j] == word;
      NormalSlice(text, i, j);
      SpelledExact(text[i..j], word);
    }
  }

  // ----- keys

  ghost predicate ShareKey(key: string) { Spelled(key, "shareurl") || Spelled(key, "share_url") }
  ghost predicate PreviewKey(key: string) { Spelled(key, "previewurl") || Spelled(key, "preview_url") }
  ghost predicate InboxKey(key: string) { Spelled(key, "inboxurl") || Spelled(key, "inbox_url") }

  ghost predicate TransferKey(key: string)
  {
    || Spelled(key, "downloadurl") || Spelled(key, "download_url")
    || Spelled(key, "uploadurl") || Spelled(key, "upload_url")
  }

  ghost predicate SecretKey(key: string)
  {
    || Holds(key, "token") || Holds(key, "secret") || Holds(key, "password") || Holds(key, "authorization")
    || Holds(key, "cookie") || Holds(key, "oauth_code") || Spelled(key, "otp")
    || Holds(key, "confirmation_code") || Holds(key, "confirmationcode")
    || Holds(key, "signed_url") || Holds(key, "presigned_url") || Holds(key, "capability")
  }

  /** A link is hidden unless the call has just issued it; a transfer URL and a secret always are. */
  ghost predicate KeyHidden(key: string, issued: Capability)
  {
    if ShareKey(key) then issued != Share
    else if PreviewKey(key) then issued != Preview
    else if InboxKey(key) then issued != Inbox
    else TransferKey(key) || SecretKey(key)
  }

  lemma LinkKeys(key: string)
    ensures ShareKey(key) <==> PublicCapability(NormalKey(key)) == Some(Share)
    ensures PreviewKey(key) <==> PublicCapability(NormalKey(key)) == Some(Preview)
    ensures InboxKey(key) <==> PublicCapability(NormalKey(key)) == Some(Inbox)
  {
    hide NormalKey, Spelled;
    SpelledExact(key, "shareurl");
    SpelledExact(key, "share_url");
    SpelledExact(key, "previewurl");
    SpelledExact(key, "preview_url");
    SpelledExact(key, "inboxurl");
    SpelledExact(key, "inbox_url");
  }

  lemma PlainKeys(key: string)
    ensures TransferKey(key) || Spelled(key, "otp") <==>
              NormalKey(key) in ["downloadurl", "download_url", "uploadurl", "upload_url", "otp"]
  {
    hide NormalKey, Spelled;
    SpelledExact(key, "downloadurl");
    SpelledExact(key, "download_url");
    SpelledExact(key, "uploadurl");
    SpelledExact(key, "upload_url");
    SpelledExact(key, "otp");
  }

  lemma WordOfPart(part: string)
    requires part in SENSITIVE_PARTS
    ensures Word(part)
  {
  }

  lemma SecretWords(key: string)
    ensures SecretKey(key) <==>
              Spelled(key, "otp") || exists part | part in SENSITIVE_PARTS :: Contains(NormalKey(key), part)
  {
    hide NormalKey, Spelled, Holds, Contains, Word;
    forall part | part in SENSITIVE_PARTS ensures Holds(key, part) <==> Contains(NormalKey(key), part) {
      WordOfPart(part);
      HoldsExact(key, part);
    }
    var parts := SENSITIVE_PARTS;
    assert parts[0] == "token" && parts[1] == "secret" && parts[2] == "password" && parts[3] == "authorization";
    assert parts[4] == "cookie" && parts[5] == "oauth_code" && parts[6] == "confirmation_code";
    assert parts[7] == "confirmationcode" && parts[8] == "signed_url" && parts[9] == "presigned_url";
    assert parts[10] == "capability";
  }

  /** A key is hidden exactly as its spelling says, for every capability. */
  lemma SensitiveKeyExact(key: string, issued: Capability)
    ensures SensitiveKey(key, issued) <==> KeyHidden(key, issued)
  {
    hide NormalKey, Spelled, Contains, TransferKey, SecretKey, ShareKey, PreviewKey, InboxKey;
    LinkKeys(key);
    PlainKeys(key);
    SecretWords(key);
  }

  // ----- texts

  /** After some question mark the text holds the marker, in any case. */
  ghost predicate Queries(text: string, marker: string)
  {
    exists q, i, j | 0 <= q < i <= j <= |text| :: text[q] == '?' && Cased(text[i..j], marker)
  }

  /** The query carries a signature, a credential, a token or a secret. */
  ghost predicate TextHidden(text: string)
  {
    || Queries(text, "x-amz-signature=") || Queries(text, "x-amz-credential=")
    || Queries(text, "signature=") || Queries(text, "token=") || Queries(text, "secret=")
  }

  predicate NoCapitals(word: string)
  {
    forall i | 0 <= i < |word| :: !('A' <= word[i] <= 'Z')
  }

  lemma CasedExact(text: string, word: string)
    requires NoCapitals(word)
    ensures Cased(text, word) <==> Lower(text) == word
  {
    if Cased(text, word) {
      forall i | 0 <= i < |text| ensures Lower(text)[i] == word[i] {
        assert text[i] == word[i] || Capital(text[i], word[i]);
      }
    }
    if Lower(text) == word {
      forall i | 0 <= i < |text| ensures text[i] == word[i] || Capital(text[i], word[i]) {
        assert Lower(text)[i] == word[i];
      }
    }
  }

  lemma LowerSlice(text: string, i: nat, j: nat)
    requires i <= j <= |text|
    ensures Lower(text[i..j]) == Lower(text)[i..j]
  {
  }

  lemma CasedWithin(text: string, word: string)
    requires NoCapitals(word)
    ensures Contains(Lower(text), word) <==> exists i, j | 0 <= i <= j <= |text| :: Cased(text[i..j], word)
  {
    hide Lower, Cased, NoCapitals;
    var low := Lower(text);
    if i, j :| 0 <= i <= j <= |text| && Cased(text[i..j], word) {
      CasedExact(text[i..j], word);
      LowerSlice(text, i, j);
      assert word <= low[i..];
    }
    if Contains(low, word) {
      var i :| 0 <= i <= |low| && word <= low[i..];
      var j := i + |word|;
      assert low[i..j] == word;
      LowerSlice(text, i, j);
      CasedExact(text[i..j], word);
    }
  }

  lemma QueriesExact(text: string, marker: string)
    requires NoCapitals(marker)
    ensures Queries(text, marker) <==>
              SplitOnce(text, '?').Some? && Contains(Lower(SplitOnce(text, '?').value.1), marker)
  {
    hide Lower, Cased, NoCapitals, Contains, SplitOnce;
    match SplitOnce(text, '?') {
      case None =>
      case Some((before, query)) =>
        var n := |before| + 1;
        CasedWithin(query, marker);
        assert forall k | 0 <= k < |before| :: text[k] == before[k];
        if q, i, j :| 0 <= q < i <= j <= |text| && text[q] == '?' && Cased(text[i..j], marker) {
          assert text[i..j] == query[i - n..j - n];
        }
        if i, j :| 0 <= i <= j <= |query| && Cased(query[i..j], marker) {
          assert text[|before|] == '?' && text[i + n..j + n] == query[i..j];
        }
    }
  }

  lemma MarkersHaveNoCapitals(marker: string)
    requires marker in SENSITIVE_MARKERS
    ensures NoCapitals(marker)
  {
  }

  /** A text is hidden exactly when its query carries one of the five markers. */
  lemma SensitiveUrlExact(text: string)
    ensures SensitiveUrl(text) <==> TextHidden(text)
  {
    hide Lower, Contains, SplitOnce, Queries, NoCapitals;
    forall marker | marker in SENSITIVE_MARKERS
      ensures Queries(text, marker) <==>
                SplitOnce(text, '?').Some? && Contains(Lower(SplitOnce(text, '?').value.1), marker)
    {
      MarkersHaveNoCapitals(marker);
      QueriesExact(text, marker);
    }
    var markers := SENSITIVE_MARKERS;
    assert markers[0] == "x-amz-signature=" && markers[1] == "x-amz-credential=" && markers[2] == "signature=";
    assert markers[3] == "token=" && markers[4] == "secret=";
  }

  // ----- every position

  /** The position is a field whose key is hidden. */
  ghost predicate UnderHiddenKey(path: seq<Selector>, issued: Capability)
  {
    path != [] && path[|path| - 1].Field? && KeyHidden(path[|path| - 1].key, issued)
  }

  /** The text of a fresh guest invitation's link, in the outermost object. */
  ghost predicate FreshInvitation(value: Value, path: seq<Selector>, issued: Capability)
  {
    && issued == GuestInvitation
    && (path == [Field("invitationUrl")] || path == [Field("invitation_url")])
    && exists text :: At(value, path) == Some(String(text))
  }

  lemma HiddenExact(value: Value, path: seq<Selector>, issued: Capability)
    requires At(value, path).Some?
    ensures Hidden(value, path, issued, true) <==> UnderHiddenKey(path, issued)
    ensures Kept(value, path, issued, true) <==> FreshInvitation(value, path, issued)
  {
    hide SensitiveKey, KeyHidden, At;
    if path != [] && path[|path| - 1].Field? {
      var key := path[|path| - 1].key;
      SensitiveKeyExact(key, issued);
      if issued == GuestInvitation && (key == "invitationUrl" || key == "invitation_url") {
        InvitationKeysNotSensitive(key);
      }
    }
    if |path| == 1 && path[0].Field? { assert path == [Field(path[0].key)]; }
  }

  /** What stands at a position that is neither hidden nor a fresh invitation: the same kind of value, with
      the same items or keys, and every leaf as it was except a text whose query carries a secret. */
  ghost predicate Carried(before: Value, after: Value)
  {
    match before
    case Array(items) => after.Array? && |after.items| == |items|
    case Object(fields) => after.Object? && after.fields.Keys == fields.Keys
    case String(text) => after == String(if TextHidden(text) then "[REDACTED]" else text)
    case _ => after == before
  }

  /** What the reader of a sanitised tree finds, told by keys and texts alone: a hidden key holds the
      marker, a fresh invitation is as it was, everything else is carried over. */
  lemma PositionExact(value: Value, path: seq<Selector>, issued: Capability)
    requires At(Sanitized(value, issued, true), path).Some?
    ensures At(value, path).Some?
    ensures var before, after := At(value, path).value, At(Sanitized(value, issued, true), path).value;
            if UnderHiddenKey(path, issued) then after == String("[REDACTED]")
            else if FreshInvitation(value, path, issued) then after == before
            else Carried(before, after)
  {
    hide Sanitized, At, Hidden, Kept, TextHidden, SensitiveUrl, UnderHiddenKey, FreshInvitation;
    EveryPosition(value, path, issued);
    HiddenExact(value, path, issued);
    var before := At(value, path).value;
    if before.String? { SensitiveUrlExact(before.text); }
  }

  lemma {:induction false} OpenExact(value: Value, path: seq<Selector>, issued: Capability)
    requires At(value, path).Some?
    ensures Open(value, path, issued, true) <==> forall k | 0 < k <= |path| :: !UnderHiddenKey(path[..k], issued)
    decreases |path|
  {
    hide At, Hidden, UnderHiddenKey;
    if path != [] {
      var n := |path| - 1;
      var parent := path[..n];
      assert path == parent + [path[n]];
      AtAppend(value, parent, [path[n]]);
      OpenExact(value, parent, issued);
      HiddenExact(value, path, issued);
      assert path[..n + 1] == path;
      assert forall k | 0 < k <= n :: path[..k] == parent[..k];
    }
  }

  /** A position of the tree is a position of the sanitised one exactly when no field above it is hidden. */
  lemma ReachedExact(value: Value, path: seq<Selector>, issued: Capability)
    requires At(value, path).Some?
    ensures At(Sanitized(value, issued, true), path).Some? <==>
              forall k | 0 < k < |path| :: !UnderHiddenKey(path[..k], issued)
  {
    hide At, Hidden, Kept, UnderHiddenKey, Sanitized, Open;
    if path == [] {
      WholeTree(value, issued);
    } else {
      var n := |path| - 1;
      var parent, step := path[..n], path[n];
      assert path == parent + [step];
      AtAppend(value, parent, [step]);
      OpenExact(value, parent, issued);
      assert forall k | 0 < k <= n :: path[..k] == parent[..k];
      if At(Sanitized(value, issued, true), path).Some? { OutputPosition(value, path, issued, true); }
      if Open(value, parent, issued, true) {
        OpenParent(value, parent, step, issued, true);
        if Hidden(value, path, issued, true) {
          HiddenPosition(value, parent, step, issued, true);
        } else {
          OpenPosition(value, path, issued, true);
        }
      }
    }
  }

  lemma WholeTree(value: Value, issued: Capability)
    ensures At(Sanitized(value, issued, true), []).Some?
  {
  }
}
