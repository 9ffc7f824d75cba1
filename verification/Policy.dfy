/** Which remote endpoints outbound requests may be sent to. */
module Policy {
  import opened Wrappers

  /** What `urlparse` yields; scheme and host are lower-case, as the parser returns them. */
  datatype Url = Url(scheme: string, host: string, port: Option<nat>)

  /** Comparing origins: section 5 of RFC 6454. */
  datatype Origin = Origin(scheme: string, host: string, port: nat)

  /** The parsing and matching libraries the policy relies on. */
  datatype NetLibs = NetLibs(
    parse: string -> Url,
    loopback: string -> bool,        // "localhost" or a loopback literal
    localOrPrivate: string -> bool,  // local name, or literal private / loopback / link-local IP
    glob: (string, string) -> bool)  // fnmatch(host, pattern)

  /** An empty allowlist means that none is configured. */
  datatype EndpointPolicy = EndpointPolicy(
    allowInsecureLocalhost: bool,
    allowPrivateHosts: bool,
    allowlist: seq<string>,
    strict: bool)

  function HostOf(libs: NetLibs, url: string): string {
    libs.parse(url).host
  }

  predicate Allowed(libs: NetLibs, host: string, allowlist: seq<string>, strict: bool) {
    if allowlist == [] then !strict
    else exists p :: p in allowlist && libs.glob(host, p)
  }

  function OriginOf(libs: NetLibs, url: string): Origin {
    var u := libs.parse(url);
    var port := if u.port.GetOr(0) != 0 then u.port.value else if u.scheme == "https" then 443 else 80;
    Origin(u.scheme, u.host, port)
  }

  /** The endpoint check, clause by clause in the order it rejects. */
  predicate Passes(libs: NetLibs, p: EndpointPolicy, url: string) {
    var u := libs.parse(url);
    var localOk := p.allowInsecureLocalhost && libs.loopback(u.host);
    if u.host == "" || !(u.scheme == "https" || (u.scheme == "http" && localOk)) then false
    else if libs.localOrPrivate(u.host) && !(p.allowPrivateHosts || localOk) then false
    else if p.allowlist != [] || p.strict then Allowed(libs, u.host, p.allowlist, true)
    else true
  }

  /** The endpoint check as one condition on the parsed URL. */
  lemma PassesExactly(libs: NetLibs, p: EndpointPolicy, url: string)
    ensures var (u, local) := (libs.parse(url), p.allowInsecureLocalhost && libs.loopback(libs.parse(url).host));
            Passes(libs, p, url) <==>
            && u.host != ""
            && (u.scheme == "https" || (u.scheme == "http" && local))
            && (libs.localOrPrivate(u.host) ==> p.allowPrivateHosts || local)
            && (p.allowlist != [] || p.strict ==> exists pat :: pat in p.allowlist && libs.glob(u.host, pat))
  {
  }

  /** Two URLs share an origin when scheme and host agree and their ports do, an unnamed port being the scheme's own. */
  lemma SameOriginExactly(libs: NetLibs, a: string, b: string)
    ensures var (u, v) := (libs.parse(a), libs.parse(b));
            var (uNamed, vNamed) := (u.port.Some? && u.port != Some(0), v.port.Some? && v.port != Some(0));
            OriginOf(libs, a) == OriginOf(libs, b) <==>
            && u.scheme == v.scheme && u.host == v.host
            && (uNamed && vNamed ==> u.port == v.port)
            && (uNamed != vNamed ==>
                 (if uNamed then u.port.value else v.port.value) == if u.scheme == "https" then 443 else 80)
  {
  }

  /** A policy that restricts hosts: every endpoint it passes is on its allowlist, so strict and empty passes none. */
  lemma PassedHostIsAllowed(libs: NetLibs, p: EndpointPolicy, url: string)
    requires Passes(libs, p, url) && (p.allowlist != [] || p.strict)
    ensures Allowed(libs, HostOf(libs, url), p.allowlist, p.strict)
    ensures p.allowlist != []
    ensures exists pat :: pat in p.allowlist && libs.glob(HostOf(libs, url), pat)
  {
  }
}
