/** The text of credentials, and the recognisers that let them in. */
module Credentials {
  import opened Text
  import opened Utf8
  import opened Utf8Points
  import opened PreviewHost
  import opened Secret

  /** What a credential of this kind starts with. */
  function Tag(kind: Kind): string
  {
    match kind
    case AccessToken => "bya_"
    case ApiToken => "byd_pat_"
    case MachineToken => "byd_ci_"
    case BootstrapToken => "byb_"
    case RuntimeSecret => "bys_"
    case DownloadCapability => "byd_"
    case ShareCapability => "bysh_"
    case InboxCapability => "byin_"
    case UploadCapability => "byu_"
    case UserLoginKey => "byuk_"
    case YardGuestInvitation => "bygi_"
    case YardGuestLoginKey => "byg_"
    case YardExchangeCode => "byx_"
    case YardOidcState => "byos_"
    case YardOidcNonce => "byon_"
    case YardOidcPkceVerifier => "byop_"
    case YardSession => "byys_"
  }

  lemma TagExact(kind: Kind)
    ensures Tag(kind) == Prefix(kind) + "_"
  {
  }

  ghost predicate SmallHex(c: char)
  {
    exists v | 0 <= v < 16 :: c == "0123456789abcdef"[v]
  }

  lemma SmallHexExact(c: char)
    ensures SmallHex(c) <==> IsLowerHex(c)
  {
    if IsLowerHex(c) { HexLetterExact(HexLetterValue(c)); }
  }

  lemma HexLetterExact(v: nat)
    requires v < 16
    ensures HexLetter(v) == "0123456789abcdef"[v] && IsLowerHex(HexLetter(v)) && HexLetterValue(HexLetter(v)) == v
  {
  }

  /** Two digits for each byte, the high half first. */
  lemma {:induction false} HexDigits(bytes: seq<nat>, i: nat)
    requires i < |bytes| && forall k | 0 <= k < |bytes| :: bytes[k] < 256
    ensures |Hex(bytes)| == 2 * |bytes|
    ensures Hex(bytes)[2 * i] == "0123456789abcdef"[bytes[i] / 16]
    ensures Hex(bytes)[2 * i + 1] == "0123456789abcdef"[bytes[i] % 16]
  {
    hide HexLetter;
    var n := |bytes| - 1;
    HexShape(bytes);
    HexShape(bytes[..n]);
    HexLetterExact(bytes[n] / 16);
    HexLetterExact(bytes[n] % 16);
    if i < n { HexDigits(bytes[..n], i); }
  }

  /** Every text of digits of even length is the text of some bytes. */
  lemma {:induction false} HexOf(s: string, n: nat) returns (bytes: seq<nat>)
    requires |s| == 2 * n && forall i | 0 <= i < |s| :: IsLowerHex(s[i])
    ensures |bytes| == n && (forall i | 0 <= i < n :: bytes[i] < 256) && Hex(bytes) == s
  {
    if n == 0 {
      bytes := [];
    } else {
      var init := HexOf(s[..|s| - 2], n - 1);
      var high, low := HexLetterValue(s[|s| - 2]), HexLetterValue(s[|s| - 1]);
      bytes := init + [16 * high + low];
      assert bytes[..n - 1] == init;
      assert s == s[..|s| - 2] + [HexLetter(high), HexLetter(low)];
    }
  }

  /** The checksum texts are exactly those of 32-byte digests. */
  lemma ChecksumExact(s: string)
    ensures IsChecksum(s) <==> exists digest :: IsEntropy(digest) && s == Hex(digest)
  {
    hide Hex, IsLowerHex;
    if IsChecksum(s) {
      var digest := HexOf(s, 32);
      assert IsEntropy(digest);
    }
    if digest :| IsEntropy(digest) && s == Hex(digest) { HexShape(digest); }
  }

  /** `has_token_shape`: the prefix and 64 lowercase digits. */
  predicate HasTokenShape(value: string, prefix: string)
  {
    match StripPrefix(value, prefix)
    case None => false
    case Some(suffix) => |suffix| == 64 && forall i | 0 <= i < |suffix| :: IsLowerHex(suffix[i])
  }

  ghost predicate Credential(value: string, kind: Kind)
  {
    exists entropy :: IsEntropy(entropy) && value == Generated(kind, entropy)
  }

  /** A credential of a kind is its tag and 64 small digits, and nothing else has that shape. */
  lemma CredentialExact(value: string, kind: Kind)
    ensures Credential(value, kind) <==>
              && |value| == |Tag(kind)| + 64 && Tag(kind) <= value
              && forall i | |Tag(kind)| <= i < |value| :: SmallHex(value[i])
    ensures Credential(value, kind) <==> HasTokenShape(value, Tag(kind))
  {
    hide Tag, Prefix, Hex, SmallHex, IsLowerHex;
    TagExact(kind);
    var n := |Tag(kind)|;
    if entropy :| IsEntropy(entropy) && value == Generated(kind, entropy) {
      HexShape(entropy);
      StripPrefixConcat(Tag(kind), Hex(entropy));
      assert forall i | n <= i < |value| :: value[i] == Hex(entropy)[i - n];
    }
    forall c ensures SmallHex(c) <==> IsLowerHex(c) { SmallHexExact(c); }
    if |value| == n + 64 && Tag(kind) <= value {
      var suffix := value[n..];
      assert value == Tag(kind) + suffix;
      assert forall i | 0 <= i < 64 :: suffix[i] == value[i + n];
      assert forall i | n <= i < |value| :: value[i] == suffix[i - n];
      if forall i | 0 <= i < 64 :: IsLowerHex(suffix[i]) {
        var entropy := HexOf(suffix, 32);
        assert value == Generated(kind, entropy);
      }
    }
  }

  /** No credential passes for one of another kind. */
  lemma ShapesApart(value: string, a: Kind, b: Kind)
    requires HasTokenShape(value, Tag(a)) && HasTokenShape(value, Tag(b))
    ensures a == b
  {
    hide Tag, HasTokenShape, Generated;
    CredentialExact(value, a);
    CredentialExact(value, b);
    var x :| IsEntropy(x) && value == Generated(a, x);
    var y :| IsEntropy(y) && value == Generated(b, y);
    GeneratedInjective(a, x, b, y);
  }

  /** A secret is a text of one to 16384 bytes without control characters. */
  lemma SecretExact(points: seq<nat>)
    requires Scalars(points)
    ensures var value := EncodeText(points);
            && (IsSecret(value) <==> 1 <= |value| <= 16384 && forall i | 0 <= i < |points| :: !ControlPoint(points[i]))
            && Secret.New(value) == if IsSecret(value) then Some(value) else None
  {
    hide EncodeText, HasControl, ControlPoint;
    ControlExact(points);
  }
}
