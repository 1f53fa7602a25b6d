/** Web Yard origins: DNS bounds, URL building and what a URL determines. */
module Origin {
  import opened Text
  import opened Utf8
  import opened Decimal
  import PreviewHost
  import Secret

  const MAXIMUM_LABEL := 63
  const MAXIMUM_NAME := 253
  const MAXIMUM_ROOT := MAXIMUM_NAME - MAXIMUM_LABEL - 1

  /** `is_valid_dns_label`. */
  predicate IsDnsLabel(s: string)
  {
    && 0 < |s| <= MAXIMUM_LABEL && s[0] != '-' && s[|s| - 1] != '-'
    && forall i | 0 <= i < |s| :: IsLower(s[i]) || IsDigit(s[i]) || s[i] == '-'
  }

  ghost predicate AllLabels(labels: seq<string>) { forall i | 0 <= i < |labels| :: IsDnsLabel(labels[i]) }

  /** `valid_root_domain`. */
  predicate IsRootDomain(s: string)
  {
    |s| <= MAXIMUM_ROOT && forall i | 0 <= i < |Split(s, '.')| :: IsDnsLabel(Split(s, '.')[i])
  }

  /** An origin as the URL parser hands it over. */
  datatype WebYardOrigin = WebYardOrigin(scheme: string, domain: string, port: Option<nat>)

  /** What `WebYardOrigin::new` keeps of a parsed URL. */
  predicate ValidOrigin(o: WebYardOrigin)
  {
    && (o.scheme == "https" || (o.scheme == "http" && o.domain == "localhost"))
    && IsRootDomain(o.domain)
    && (o.port.Some? ==> o.port.value < 0x1_0000)
  }

  function Authority(host: string, port: Option<nat>): string
  {
    match port
    case None => host
    case Some(n) => host + ":" + DecimalText(n)
  }

  function Serialize(scheme: string, host: string, port: Option<nat>): string
  {
    scheme + "://" + Authority(host, port)
  }

  function Host(o: WebYardOrigin, name: string): string { name + "." + o.domain }

  /** `url_for`. */
  function UrlFor(o: WebYardOrigin, name: string): Option<string>
  {
    if IsDnsLabel(name) then Some(Serialize(o.scheme, Host(o, name), o.port)) else None
  }

  /** `secret_url_for`, wrapped without a check. */
  function SecretUrlFor(o: WebYardOrigin, name: string): Option<string>
  {
    match UrlFor(o, name)
    case None => None
    case Some(url) => Some(url + "/")
  }

  /** `matches`. */
  predicate Matches(o: WebYardOrigin, value: string, name: string) { UrlFor(o, name) == Some(value) }

  // ----- DNS bounds

  predicate DomainChar(c: char) { IsLower(c) || IsDigit(c) || c == '-' || c == '.' }

  lemma {:induction false} JoinedLabels(labels: seq<string>)
    requires labels != [] && AllLabels(labels)
    ensures forall i | 0 <= i < |Join(labels, '.')| :: DomainChar(Join(labels, '.')[i])
    ensures Join(labels, '.') != ""
  {
    if |labels| > 1 {
      JoinedLabels(labels[1..]);
    }
    assert IsDnsLabel(labels[0]);
  }

  lemma RootDomainChars(domain: string)
    requires IsRootDomain(domain)
    ensures domain != "" && forall i | 0 <= i < |domain| :: DomainChar(domain[i])
  {
    hide IsDnsLabel, Join, Split;
    JoinSplit(domain, '.');
    JoinedLabels(Split(domain, '.'));
  }

  /** Every host an origin hands out is a DNS name: at most 253 bytes, each label valid. */
  lemma HostIsDnsName(o: WebYardOrigin, name: string)
    requires ValidOrigin(o) && IsDnsLabel(name)
    ensures |Host(o, name)| <= MAXIMUM_NAME && AllLabels(Split(Host(o, name), '.'))
  {
    hide Split;
    assert '.' !in name;
    SplitConcat(name, '.', o.domain);
    SplitSingle(name, '.');
  }

  /** A preview host label is always a valid DNS label. */
  lemma PreviewLabelIsDns(entropy: seq<nat>)
    ensures IsDnsLabel(PreviewHost.HostLabel(entropy))
  {
    hide PreviewHost.HostLabel;
    Secret.HostLabelShape(entropy);
    var s := PreviewHost.HostLabel(entropy);
    assert PreviewHost.IsLetter(s[0]) && PreviewHost.IsLetter(s[|s| - 1]);
  }

  // ----- the unchecked secret

  lemma AuthorityShape(host: string, port: Option<nat>)
    requires port.Some? ==> port.value < 0x1_0000
    requires forall i | 0 <= i < |host| :: DomainChar(host[i])
    ensures Secret.Printable(Authority(host, port)) && |host| <= |Authority(host, port)| <= |host| + 21
  {
    hide DecimalText;
    if port.Some? {
      DecimalDigits(port.value);
      U64Length(port.value);
    }
  }

  /** The secret URL that skips validation satisfies the secret invariant anyway. */
  lemma SecretUrlIsSecret(o: WebYardOrigin, name: string)
    requires ValidOrigin(o) && SecretUrlFor(o, name).Some?
    ensures Secret.IsSecret(SecretUrlFor(o, name).value)
    ensures Secret.New(SecretUrlFor(o, name).value) == SecretUrlFor(o, name)
  {
    hide IsRootDomain, HasControl, Authority;
    HostIsDnsName(o, name);
    RootDomainChars(o.domain);
    var host := Host(o, name);
    assert forall i | 0 <= i < |host| :: DomainChar(host[i]);
    AuthorityShape(host, o.port);
    var url := SecretUrlFor(o, name).value;
    assert Secret.Printable(o.scheme) && Secret.Printable("://") && Secret.Printable("/");
    assert url == o.scheme + "://" + Authority(host, o.port) + "/";
    Secret.PrintableIsSecret(url);
  }

  // ----- what a URL determines

  /** The parts of a Yard URL. */
  datatype Parts = Parts(scheme: string, name: string, domain: string, port: Option<nat>)

  function ReadAuthority(authority: string): Option<(string, Option<nat>)>
  {
    match SplitOnce(authority, ':')
    case None => Some((authority, None))
    case Some((host, digits)) => if ParseU64(digits).Some? then Some((host, ParseU64(digits))) else None
  }

  /** Reads a URL from its delimiters alone. */
  function ReadUrl(url: string): Option<Parts>
  {
    match SplitOnce(url, ':')
    case None => None
    case Some((scheme, rest)) =>
      match StripPrefix(rest, "//")
      case None => None
      case Some(authority) =>
        match ReadAuthority(authority)
        case None => None
        case Some((host, port)) =>
          match SplitOnce(host, '.')
          case None => None
          case Some((name, domain)) => Some(Parts(scheme, name, domain, port))
  }

  lemma AuthorityReadsBack(host: string, port: Option<nat>)
    requires ':' !in host && (port.Some? ==> port.value < U64_LIMIT)
    ensures ReadAuthority(Authority(host, port)) == Some((host, port))
  {
    hide ParseU64, DecimalText;
    if port.Some? {
      SplitOnceConcat(host, ':', DecimalText(port.value));
      ParseDecimal(port.value);
    }
  }

  /** A Yard URL reads back as exactly the origin and the name it was built from. */
  lemma UrlReadsBack(o: WebYardOrigin, name: string)
    requires ValidOrigin(o) && IsDnsLabel(name)
    ensures ReadUrl(UrlFor(o, name).value) == Some(Parts(o.scheme, name, o.domain, o.port))
  {
    hide IsRootDomain, SplitOnce, Authority, ReadAuthority, StripPrefix;
    RootDomainChars(o.domain);
    var host := Host(o, name);
    assert ':' !in host && '.' !in name;
    var rest := "//" + Authority(host, o.port);
    assert UrlFor(o, name).value == o.scheme + ":" + rest by { assert "://" == ":" + "//"; }
    assert ':' !in o.scheme;
    SplitOnceConcat(o.scheme, ':', rest);
    StripPrefixConcat("//", Authority(host, o.port));
    AuthorityReadsBack(host, o.port);
    SplitOnceConcat(name, '.', o.domain);
  }

  /** A Yard URL belongs to one origin and one name: two origins never hand out the same URL, and no
      URL matches two names. */
  lemma UrlDeterminesYard(o: WebYardOrigin, name: string, o': WebYardOrigin, name': string, value: string)
    requires ValidOrigin(o) && ValidOrigin(o') && Matches(o, value, name) && Matches(o', value, name')
    ensures o == o' && name == name'
  {
    hide ReadUrl, ValidOrigin, Serialize;
    UrlReadsBack(o, name);
    UrlReadsBack(o', name');
  }
}
