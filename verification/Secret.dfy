/** Credentials: the invariant every constructor keeps, and what generated text determines. */
module Secret {
  import opened Text
  import opened Utf8
  import opened Radix
  import opened PreviewHost

  const MAXIMUM_SECRET := 16384

  /** Nonempty, bounded, one line. */
  predicate IsSecret(s: string) { 0 < |s| <= MAXIMUM_SECRET && !HasControl(s) }

  /** `SecretString::new`. */
  function New(value: string): Option<string>
  {
    if value == "" || |value| > MAXIMUM_SECRET || HasControl(value) then None else Some(value)
  }

  /** Printable ASCII holds no control character. */
  predicate Printable(s: string) { forall i | 0 <= i < |s| :: 0x20 <= s[i] as int < 0x7F }

  lemma PrintableIsSecret(s: string)
    requires Printable(s) && 0 < |s| <= MAXIMUM_SECRET
    ensures IsSecret(s)
  {
    assert forall i | 0 <= i < |s| :: !ControlAt(s, i);
  }

  // ----- hexadecimal

  function HexLetter(v: nat): (c: char)
    requires v < 16
  {
    if v < 10 then ('0' as int + v) as char else ('a' as int + v - 10) as char
  }

  predicate IsLowerHex(c: char) { IsDigit(c) || 'a' <= c <= 'f' }

  function Hex(bytes: seq<nat>): string
    requires forall i | 0 <= i < |bytes| :: bytes[i] < 256
  {
    if bytes == [] then ""
    else Hex(bytes[..|bytes| - 1]) + [HexLetter(bytes[|bytes| - 1] / 16), HexLetter(bytes[|bytes| - 1] % 16)]
  }

  /** `hex_digest`: two characters pushed for each byte. */
  method HexDigest(bytes: seq<nat>) returns (output: string)
    requires forall i | 0 <= i < |bytes| :: bytes[i] < 256
    ensures output == Hex(bytes)
  {
    output := "";
    for k := 0 to |bytes|
      invariant output == Hex(bytes[..k])
    {
      output := output + [HexLetter(bytes[k] / 16)];
      output := output + [HexLetter(bytes[k] % 16)];
      assert bytes[..k + 1][..k] == bytes[..k];
    }
    assert bytes[..|bytes|] == bytes;
  }

  lemma {:induction false} HexShape(bytes: seq<nat>)
    requires forall i | 0 <= i < |bytes| :: bytes[i] < 256
    ensures |Hex(bytes)| == 2 * |bytes| && forall i | 0 <= i < |Hex(bytes)| :: IsLowerHex(Hex(bytes)[i])
  {
    if bytes != [] { HexShape(bytes[..|bytes| - 1]); }
  }

  function HexLetterValue(c: char): nat
    requires IsLowerHex(c)
  {
    if IsDigit(c) then c as int - '0' as int else c as int - 'a' as int + 10
  }

  /** Each pair of characters reads back as its byte, high half first. */
  lemma {:induction false} HexReads(bytes: seq<nat>, i: nat)
    requires i < |bytes| && forall k | 0 <= k < |bytes| :: bytes[k] < 256
    ensures |Hex(bytes)| == 2 * |bytes|
    ensures var high, low := Hex(bytes)[2 * i], Hex(bytes)[2 * i + 1];
            IsLowerHex(high) && IsLowerHex(low) && 16 * HexLetterValue(high) + HexLetterValue(low) == bytes[i]
  {
    var n := |bytes| - 1;
    HexShape(bytes);
    HexShape(bytes[..n]);
    if i < n {
      HexReads(bytes[..n], i);
      assert Hex(bytes)[2 * i] == Hex(bytes[..n])[2 * i] && Hex(bytes)[2 * i + 1] == Hex(bytes[..n])[2 * i + 1];
    } else {
      assert Hex(bytes)[2 * n] == HexLetter(bytes[n] / 16) && Hex(bytes)[2 * n + 1] == HexLetter(bytes[n] % 16);
    }
  }

  lemma HexInjective(a: seq<nat>, b: seq<nat>)
    requires (forall i | 0 <= i < |a| :: a[i] < 256) && (forall i | 0 <= i < |b| :: b[i] < 256)
    requires Hex(a) == Hex(b)
    ensures a == b
  {
    hide Hex;
    HexShape(a);
    HexShape(b);
    forall i | 0 <= i < |a| ensures a[i] == b[i] {
      HexReads(a, i);
      HexReads(b, i);
    }
  }

  /** `ObjectChecksum::new` and `valid_source_manifest_digest` accept. */
  predicate IsChecksum(s: string) { |s| == 64 && forall i | 0 <= i < |s| :: IsLowerHex(s[i]) }

  /** The checksum built from a digest is one the validating constructor accepts. */
  lemma DigestIsChecksum(digest: seq<nat>)
    requires IsEntropy(digest)
    ensures IsChecksum(Hex(digest))
  {
    HexShape(digest);
  }

  // ----- generated credentials

  datatype Kind =
    | AccessToken | ApiToken | MachineToken | BootstrapToken | RuntimeSecret | DownloadCapability | ShareCapability
    | InboxCapability | UploadCapability | UserLoginKey | YardGuestInvitation | YardGuestLoginKey | YardExchangeCode
    | YardOidcState | YardOidcNonce | YardOidcPkceVerifier | YardSession

  function Prefix(kind: Kind): string
  {
    match kind
    case AccessToken => "bya"
    case ApiToken => "byd_pat"
    case MachineToken => "byd_ci"
    case BootstrapToken => "byb"
    case RuntimeSecret => "bys"
    case DownloadCapability => "byd"
    case ShareCapability => "bysh"
    case InboxCapability => "byin"
    case UploadCapability => "byu"
    case UserLoginKey => "byuk"
    case YardGuestInvitation => "bygi"
    case YardGuestLoginKey => "byg"
    case YardExchangeCode => "byx"
    case YardOidcState => "byos"
    case YardOidcNonce => "byon"
    case YardOidcPkceVerifier => "byop"
    case YardSession => "byys"
  }

  /** `from_generated_entropy`. */
  function Generated(kind: Kind, entropy: seq<nat>): string
    requires forall i | 0 <= i < |entropy| :: entropy[i] < 256
  {
    Prefix(kind) + "_" + Hex(entropy)
  }

  /** The third and later characters tell the kinds apart. */
  lemma PrefixInjective(a: Kind, b: Kind)
    requires Prefix(a) == Prefix(b)
    ensures a == b
  {
    var p, q := Prefix(a), Prefix(b);
    assert |p| == |q| && p[2] == q[2] && (|p| > 3 ==> p[3] == q[3]) && (|p| > 4 ==> p[4] == q[4]);
  }

  /** The text of a generated credential determines its kind and all of its entropy, although some
      prefixes are prefixes of others. */
  lemma GeneratedInjective(a: Kind, x: seq<nat>, b: Kind, y: seq<nat>)
    requires IsEntropy(x) && IsEntropy(y) && Generated(a, x) == Generated(b, y)
    ensures a == b && x == y
  {
    hide Prefix, Hex;
    HexShape(x);
    HexShape(y);
    var s, n := Generated(a, x), |Generated(a, x)| - 65;
    assert s[..n] == Prefix(a) && s[..n] == Prefix(b);
    assert s[n + 1..] == Hex(x) && s[n + 1..] == Hex(y);
    PrefixInjective(a, b);
    HexInjective(x, y);
  }

  lemma PrefixShape(kind: Kind)
    ensures 3 <= |Prefix(kind)| <= 7 && Printable(Prefix(kind))
  {
  }

  lemma GeneratedIsSecret(kind: Kind, entropy: seq<nat>)
    requires IsEntropy(entropy)
    ensures IsSecret(Generated(kind, entropy))
  {
    hide Prefix, Hex;
    PrefixShape(kind);
    HexShape(entropy);
    PrintableIsSecret(Generated(kind, entropy));
  }

  lemma HostLabelShape(entropy: seq<nat>)
    ensures |HostLabel(entropy)| == LABEL_LENGTH
    ensures forall i | 0 <= i < LABEL_LENGTH :: IsLetter(HostLabel(entropy)[i])
  {
    hide FixedDigits, Letter, Value;
    var digits := FixedDigits(16 * Value(entropy, 256), 32, LABEL_LENGTH);
    forall i | 0 <= i < LABEL_LENGTH ensures IsLetter(HostLabel(entropy)[i]) { IndexOfLetter(digits[i]); }
  }

  lemma HostLabelIsSecret(entropy: seq<nat>)
    ensures IsSecret(HostLabel(entropy))
  {
    hide HostLabel;
    HostLabelShape(entropy);
    PrintableIsSecret(HostLabel(entropy));
  }
}
