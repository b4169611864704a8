/**
 * The base-URL resolver behind every outward link the server builds
 * (`getBaseUrl` in server.js) and the check the tunnel-info endpoint makes
 * with it.
 */
module BaseUrl {
  import opened Wrappers
  import opened JsStrings

  /** The stable public address QR codes and viewer links always point to. */
  const YourNgrokUrl := "https://papir.ca"

  /** The one registered tunnel hostname that is redirected to `YourNgrokUrl`. */
  const PinnedHost := "sharyl-nontheosophical-religiously.ngrok-free.dev"

  /** The tunnel provider's domains; the provider always terminates TLS. */
  const TunnelDomains := ["ngrok-free.dev", "ngrok-free.app", "ngrok-free.com"]

  /** A missing Host header reads as the empty string. */
  function HostOf(header: Option<string>): (host: string) {
    header.GetOr("")
  }

  predicate IsTunnelHost(host: string) {
    Contains(host, TunnelDomains[0]) || Contains(host, TunnelDomains[1]) || Contains(host, TunnelDomains[2])
  }

  /**
   * `getBaseUrl(req)`: the pinned hostname, then any tunnel domain, then the
   * request as declared; first match wins. On a tunnel host the letter `s` is
   * appended to whatever protocol the request declared.
   */
  function GetBaseUrl(protocol: string, hostHeader: Option<string>): (url: string) {
    var host := HostOf(hostHeader);
    if Contains(host, PinnedHost) then YourNgrokUrl
    else if IsTunnelHost(host) then protocol + "s://" + host
    else protocol + "://" + host
  }

  /** `isUsingYourNgrok`: the resolved base URL is exactly the pinned public address. */
  predicate IsUsingYourNgrok(protocol: string, hostHeader: Option<string>) {
    GetBaseUrl(protocol, hostHeader) == YourNgrokUrl
  }

  /** The pinned hostname is itself a tunnel host, so the order of the first two rules matters. */
  lemma PinnedHostIsTunnelHost(host: string)
    requires Contains(host, PinnedHost)
    ensures IsTunnelHost(host)
  {
    assert PinnedHost == "sharyl-nontheosophical-religiously." + TunnelDomains[0] + "";
    ContainsInfix("sharyl-nontheosophical-religiously.", TunnelDomains[0], "");
    ContainsTransitive(host, PinnedHost, TunnelDomains[0]);
  }

  /** Rule 1: a host naming the pinned tunnel resolves to the public address, whatever the protocol. */
  lemma PinnedHostWins(protocol: string, host: string)
    requires Contains(host, PinnedHost)
    ensures IsTunnelHost(host)
    ensures GetBaseUrl(protocol, Some(host)) == YourNgrokUrl
  {
    PinnedHostIsTunnelHost(host);
  }

  /** Rule 2: any other tunnel host gets the declared protocol with `s` appended. */
  lemma TunnelHostAppendsS(protocol: string, host: string)
    requires IsTunnelHost(host) && !Contains(host, PinnedHost)
    ensures GetBaseUrl(protocol, Some(host)) == protocol + "s://" + host
  {
  }

  /** Rule 3: a host naming no tunnel domain is used as declared; the pinned rule cannot fire. */
  lemma OtherHostAsDeclared(protocol: string, host: string)
    requires !IsTunnelHost(host)
    ensures !Contains(host, PinnedHost)
    ensures GetBaseUrl(protocol, Some(host)) == protocol + "://" + host
  {
    if Contains(host, PinnedHost) {
      PinnedHostIsTunnelHost(host);
    }
  }

  /** A missing Host header behaves like an empty one and yields `protocol + "://"`. */
  lemma MissingHostIsEmpty(protocol: string)
    ensures GetBaseUrl(protocol, None) == GetBaseUrl(protocol, Some(""))
    ensures GetBaseUrl(protocol, None) == protocol + "://"
  {
  }

  /**
   * For a protocol without a colon (as `req.protocol` always is), the
   * tunnel-info check succeeds exactly on the pinned tunnel and on a direct
   * `https` request to `papir.ca`.
   */
  lemma IsUsingYourNgrokExactly(protocol: string, host: string)
    requires ':' !in protocol
    ensures IsUsingYourNgrok(protocol, Some(host))
            <==> Contains(host, PinnedHost) || (protocol == "https" && host == "papir.ca")
  {
    if Contains(host, PinnedHost) {
    } else if IsTunnelHost(host) {
      assert protocol + "s://" + host == (protocol + "s") + ("://" + host);
      assert YourNgrokUrl == "https" + "://papir.ca";
      SplitAtFirst(protocol + "s", "://" + host, "https", "://papir.ca", ':');
    } else {
      assert protocol + "://" + host == protocol + ("://" + host);
      assert YourNgrokUrl == "https" + "://papir.ca";
      SplitAtFirst(protocol, "://" + host, "https", "://papir.ca", ':');
      assert ("://" + host)[3..] == host && "://papir.ca"[3..] == "papir.ca";
      if protocol == "https" && host == "papir.ca" {
        assert protocol + ("://" + host) == "https" + "://papir.ca";
      }
    }
  }

  // The resolver as a data-driven table of host rules, first match wins.

  /** What a matching rule makes of the request. */
  datatype Target =
    | Fixed(url: string)     // a configured override
    | ForceTls               // the declared protocol with `s` appended
    | AsDeclared             // the request's own protocol and host

  /** A rule fires when the host contains any one of its markers. */
  datatype Rule = Rule(markers: seq<string>, target: Target)

  predicate MatchesAny(host: string, markers: seq<string>) {
    exists k :: 0 <= k < |markers| && Contains(host, markers[k])
  }

  function Apply(target: Target, protocol: string, host: string): (url: string) {
    match target
    case Fixed(url) => url
    case ForceTls => protocol + "s://" + host
    case AsDeclared => protocol + "://" + host
  }

  /** The first rule whose markers the host contains decides; with none, the request is used as declared. */
  function Resolve(rules: seq<Rule>, protocol: string, host: string): (url: string)
  {
    if rules == [] then Apply(AsDeclared, protocol, host)
    else if MatchesAny(host, rules[0].markers) then Apply(rules[0].target, protocol, host)
    else Resolve(rules[1..], protocol, host)
  }

  /** The rule table `getBaseUrl` hard-codes. */
  const TunnelPolicy := [Rule([PinnedHost], Fixed(YourNgrokUrl)), Rule(TunnelDomains, ForceTls)]

  /** First match wins: the earliest matching rule decides, whatever follows it. */
  lemma {:induction false} ResolveFirstMatch(rules: seq<Rule>, protocol: string, host: string, k: nat)
    requires k < |rules| && MatchesAny(host, rules[k].markers)
    requires forall j :: 0 <= j < k ==> !MatchesAny(host, rules[j].markers)
    ensures Resolve(rules, protocol, host) == Apply(rules[k].target, protocol, host)
  {
    if k > 0 {
      assert !MatchesAny(host, rules[0].markers);
      assert rules[1..][k - 1] == rules[k];
      ResolveFirstMatch(rules[1..], protocol, host, k - 1);
    }
  }

  /** When no rule matches, the request is used as declared. */
  lemma {:induction false} ResolveNoMatch(rules: seq<Rule>, protocol: string, host: string)
    requires forall j :: 0 <= j < |rules| ==> !MatchesAny(host, rules[j].markers)
    ensures Resolve(rules, protocol, host) == protocol + "://" + host
  {
    if rules != [] {
      assert !MatchesAny(host, rules[0].markers);
      ResolveNoMatch(rules[1..], protocol, host);
    }
  }

  /** `getBaseUrl` is the rule table applied to the request's host. */
  lemma GetBaseUrlFollowsPolicy(protocol: string, hostHeader: Option<string>)
    ensures GetBaseUrl(protocol, hostHeader) == Resolve(TunnelPolicy, protocol, HostOf(hostHeader))
  {
    var host := HostOf(hostHeader);
    var rules := TunnelPolicy;
    assert rules[0].markers == [PinnedHost];
    assert rules[1].markers == TunnelDomains;
    assert MatchesAny(host, rules[0].markers) <==> Contains(host, PinnedHost) by {
      if Contains(host, PinnedHost) {
        assert Contains(host, rules[0].markers[0]);
      }
    }
    assert MatchesAny(host, rules[1].markers) <==> IsTunnelHost(host) by {
      if IsTunnelHost(host) {
        if Contains(host, TunnelDomains[0]) {
          assert Contains(host, rules[1].markers[0]);
        } else if Contains(host, TunnelDomains[1]) {
          assert Contains(host, rules[1].markers[1]);
        } else {
          assert Contains(host, rules[1].markers[2]);
        }
      }
    }
    if Contains(host, PinnedHost) {
      ResolveFirstMatch(rules, protocol, host, 0);
    } else if IsTunnelHost(host) {
      ResolveFirstMatch(rules, protocol, host, 1);
    } else {
      ResolveNoMatch(rules, protocol, host);
    }
  }
}
