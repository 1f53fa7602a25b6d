/** Origins and their URLs, written out. */
module OriginTexts {
  import opened Text
  import opened Decimal
  import opened Origin

  ghost predicate LabelEnd(c: char)
  {
    'a' <= c <= 'z' || '0' <= c <= '9'
  }

  /** Small letters and digits at both ends, hyphens between them, 63 bytes at most. */
  ghost predicate LabelText(s: string)
  {
    && 1 <= |s| <= 63 && LabelEnd(s[0]) && LabelEnd(s[|s| - 1])
    && forall i | 0 <= i < |s| :: LabelEnd(s[i]) || s[i] == '-'
  }

  lemma LabelExact(s: string)
    ensures IsDnsLabel(s) <==> LabelText(s)
  {
  }

  /** Labels with one dot between neighbours, leaving room for one more label below 253 bytes. */
  ghost predicate DomainText(domain: string)
  {
    && |domain| <= 189
    && exists labels :: labels != [] && (forall i | 0 <= i < |labels| :: LabelText(labels[i]))
                        && domain == Join(labels, '.')
  }

  lemma DomainExact(domain: string)
    ensures IsRootDomain(domain) <==> DomainText(domain)
  {
    hide IsDnsLabel, LabelText, Split, Join;
    var parts := Split(domain, '.');
    forall s ensures IsDnsLabel(s) <==> LabelText(s) { LabelExact(s); }
    if IsRootDomain(domain) { JoinSplit(domain, '.'); }
    if DomainText(domain) {
      var labels :| labels != [] && (forall i | 0 <= i < |labels| :: LabelText(labels[i]))
                    && domain == Join(labels, '.');
      forall i | 0 <= i < |labels| ensures '.' !in labels[i] { LabelHasNoDot(labels[i]); }
      SplitJoin(labels, '.');
    }
  }

  lemma LabelHasNoDot(s: string)
    requires LabelText(s)
    ensures '.' !in s
  {
  }

  /** An origin is HTTPS, or HTTP on `localhost`, with a domain and a sixteen-bit port. */
  lemma OriginExact(o: WebYardOrigin)
    ensures ValidOrigin(o) <==>
              && (o.scheme == "https" || (o.scheme == "http" && o.domain == "localhost"))
              && DomainText(o.domain) && (forall port | o.port == Some(port) :: port <= 65535)
  {
    hide IsRootDomain, DomainText;
    DomainExact(o.domain);
  }

  /** The root URL of a Yard, for exactly the names that are labels; its secret form ends in a slash. */
  lemma UrlExact(o: WebYardOrigin, name: string)
    ensures var root := o.scheme + "://" + name + "." + o.domain +
                        match o.port case None => "" case Some(port) => ":" + DecimalText(port);
            && UrlFor(o, name) == (if LabelText(name) then Some(root) else None)
            && SecretUrlFor(o, name) == (if LabelText(name) then Some(root + "/") else None)
            && forall value :: Matches(o, value, name) <==> LabelText(name) && value == root
  {
    hide IsDnsLabel, LabelText, DecimalText;
    LabelExact(name);
    var start := o.scheme + "://" + name + "." + o.domain;
    assert o.scheme + "://" + (name + "." + o.domain) == start;
    match o.port {
      case None =>
        assert start + "" == start;
      case Some(port) =>
        var tail := DecimalText(port);
        assert o.scheme + "://" + (name + "." + o.domain + ":" + tail) == start + (":" + tail);
    }
  }

  // ----- the bound is tight

  function Repeated(n: nat): (s: string)
    ensures |s| == n && forall i | 0 <= i < n :: s[i] == 'a'
  {
    seq(n, _ => 'a')
  }

  lemma RepeatedLabel(n: nat)
    requires 1 <= n <= 63
    ensures LabelText(Repeated(n)) && IsDnsLabel(Repeated(n))
  {
    assert Repeated(n)[0] == 'a' && Repeated(n)[n - 1] == 'a';
  }

  lemma JoinThree(a: string, b: string, c: string)
    ensures Join([a, b, c], '.') == a + "." + (b + "." + c)
  {
    assert [a, b, c][1..] == [b, c] && [b, c][1..] == [c];
    assert Join([b, c], '.') == b + "." + c;
  }

  /** With the longest domain and the longest name a host fills the 253 bytes of a DNS name. */
  lemma LongestHost()
    ensures exists o, name :: ValidOrigin(o) && IsDnsLabel(name) && |Host(o, name)| == 253
  {
    hide LabelText, IsDnsLabel, Join, IsRootDomain;
    var full, last := Repeated(63), Repeated(61);
    RepeatedLabel(63);
    RepeatedLabel(61);
    JoinThree(full, full, last);
    var labels := [full, full, last];
    var domain := Join(labels, '.');
    assert DomainText(domain) by {
      assert forall i | 0 <= i < |labels| :: LabelText(labels[i]);
    }
    DomainExact(domain);
    var o := WebYardOrigin("https", domain, None);
    assert ValidOrigin(o) && IsDnsLabel(full) && |Host(o, full)| == 253;
  }
}
