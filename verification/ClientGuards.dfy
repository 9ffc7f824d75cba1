/** Where a client's credentials go, in terms of the parsed URLs alone, and what the guard lets through. */
module ClientGuards {
  import opened Wrappers
  import opened Json
  import opened Negotiation
  import opened Policy
  import opened Streams
  import opened ClientSpec
  import opened ClientRuns
  import opened ClientTheorems
  import Pools = PoolSpec

  /**
   Every bearer value of every run goes to a named host over https -- or over http to a loopback
   host, when the policy opted in to that --, to no local or private host the policy has not opted
   in to, and to the scheme and host the card was discovered at.
   */
  lemma BearerGoesWhereAllowed(w: World, card: Option<AgentCard>, http: bool, ops: seq<Op>, r: Request)
    requires Starts(w, card) && r in Run(w, Initial(card, http), ops).log && r.Rpc? && r.bearer.Some?
    ensures var (u, v, p) := (w.net.parse(r.url), w.net.parse(w.cfg.cardUrl), w.cfg.policy);
            var local := p.allowInsecureLocalhost && w.net.loopback(u.host);
            && u.host != ""
            && (u.scheme == "https" || (u.scheme == "http" && local))
            && (w.net.localOrPrivate(u.host) ==> p.allowPrivateHosts || local)
            && (p.allowlist != [] || p.strict ==> exists pat :: pat in p.allowlist && w.net.glob(u.host, pat))
            && u.scheme == v.scheme && u.host == v.host
  {
    CredentialsStayHome(w, card, http, ops, r);
    PassesExactly(w.net, w.cfg.policy, r.url);
    SameOriginExactly(w.net, r.url, w.cfg.cardUrl);
  }

  /**
   Over every pool run a bearer value goes over https, to a host neither local nor private that the
   pool's own rule admits, and to the host its client was asked for.
   */
  lemma PooledBearerIsPublic(m: Pools.Manager, ops: seq<Pools.PoolOp>)
    ensures var p := Pools.PoolRun(m, Pools.Empty, ops);
            forall i, r :: 0 <= i < |p.clients| && r in p.clients[i].1.log && r.Rpc? && r.bearer.Some? ==>
              var (u, v) := (m.net.parse(r.url), m.net.parse(p.clients[i].0.cfg.cardUrl));
              && u.scheme == "https" && u.host != "" && !m.net.localOrPrivate(u.host)
              && u.scheme == v.scheme && u.host == v.host
              && (m.allowlist != [] ==> exists pat :: pat in m.allowlist && m.net.glob(u.host, pat))
              && (m.allowlist == [] ==> !m.strict)
  {
    Pools.PooledCredentialsStayHome(m, ops);
    var p := Pools.PoolRun(m, Pools.Empty, ops);
    forall i, r | 0 <= i < |p.clients| && r in p.clients[i].1.log && r.Rpc? && r.bearer.Some?
      ensures var (u, v) := (m.net.parse(r.url), m.net.parse(p.clients[i].0.cfg.cardUrl));
              && u.scheme == "https" && u.host != "" && !m.net.localOrPrivate(u.host)
              && u.scheme == v.scheme && u.host == v.host
              && (m.allowlist != [] ==> exists pat :: pat in m.allowlist && m.net.glob(u.host, pat))
              && (m.allowlist == [] ==> !m.strict)
    {
      PassesExactly(m.net, Pools.PoolPolicy(m), r.url);
      SameOriginExactly(m.net, r.url, p.clients[i].0.cfg.cardUrl);
    }
  }

  /** A pooled client is admitted by its host alone: no list and not strict, or a matching pattern. */
  lemma AdmittedExactly(m: Pools.Manager, url: string)
    ensures Pools.Admits(m, url) <==>
            if m.allowlist == [] then !m.strict
            else exists pat :: pat in m.allowlist && m.net.glob(m.net.parse(url).host, pat)
  {
  }

  /** What a pooled client is made of: no opt-ins, the manager's rule, no pin, no tenant, two tries. */
  lemma PooledClientIsDefault(m: Pools.Manager, i: nat, url: string)
    ensures var cfg := Pools.ClientWorld(m, i, url).cfg;
            && cfg.cardUrl == url && cfg.auth == m.auth && cfg.protocol == Auto && cfg.tenant == None
            && !cfg.policy.allowInsecureLocalhost && !cfg.policy.allowPrivateHosts
            && cfg.policy.allowlist == m.allowlist && cfg.policy.strict == m.strict
            && Attempts(cfg) == 2
  {
  }

  /** Would a request to the RPC URL carry a credential? */
  predicate Carries(w: World, st: State) {
    w.cfg.auth.scheme != NoAuth || (st.cardV1.Some? && |st.cardV1.value.securityRequirements| > 0)
  }

  /**
   The guard, exactly: without credentials, allowlist and strict mode any URL goes; otherwise it
   must pass the endpoint check, and with credentials share the card URL's origin too. A refusal
   names the clause that failed and sends nothing.
   */
  lemma GuardRefusesExactly(w: World, st: State, card: AgentCard)
    ensures var a := Authorize(w, st, card);
            var (u, v, p) := (w.net.parse(card.url), w.net.parse(w.cfg.cardUrl), w.cfg.policy);
            var local := p.allowInsecureLocalhost && w.net.loopback(u.host);
            var listed := p.allowlist != [] || p.strict;
            var fit :=
              && u.host != ""
              && (u.scheme == "https" || (u.scheme == "http" && local))
              && (w.net.localOrPrivate(u.host) ==> p.allowPrivateHosts || local)
              && (listed ==> exists pat :: pat in p.allowlist && w.net.glob(u.host, pat));
            && (a.out == Err(Unavailable(UrlDenied(card.url))) <==> (Carries(w, st) || listed) && !fit)
            && (a.out == Err(Unavailable(OriginDiffers)) <==>
                 Carries(w, st) && fit && OriginOf(w.net, card.url) != OriginOf(w.net, w.cfg.cardUrl))
            && (a.out == Err(Unavailable(UrlDenied(card.url))) || a.out == Err(Unavailable(OriginDiffers)) ==>
                 a.st == st)
            && (a.out.Ok? ==> a.out.value.0 == card.url)
  {
    PassesExactly(w.net, w.cfg.policy, card.url);
    var header := AuthHeader(w, st).out;
    assert header.Err? && header.error.Unavailable? ==>
             header.error.reason.NoTokenUrl? || header.error.reason.TokenFailed?;
  }

  /**
   The converse of the safety claims: a public https URL of the card's own origin is never refused
   when no list is configured, and a configured bearer token is then sent.
   */
  lemma PublicHomeIsServed(w: World, st: State, card: AgentCard)
    requires w.cfg.policy.allowlist == [] && !w.cfg.policy.strict
    requires var u := w.net.parse(card.url); u.scheme == "https" && u.host != "" && !w.net.localOrPrivate(u.host)
    requires OriginOf(w.net, card.url) == OriginOf(w.net, w.cfg.cardUrl)
    ensures var a := Authorize(w, st, card);
            && a.out != Err(Unavailable(UrlDenied(card.url))) && a.out != Err(Unavailable(OriginDiffers))
            && (w.cfg.auth.scheme == Bearer && w.cfg.auth.bearerToken.Some? ==>
                 a == Step(st, Ok((card.url, w.cfg.auth.bearerToken))))
  {
    GuardRefusesExactly(w, st, card);
  }

  // ---------- which bearer value is sent ----------

  /**
   Client credentials: a cached token is sent as it is; otherwise one POST to the token URL, and
   from an object reply with an access_token that value, cached; any other reply is a failure.
   */
  lemma ClientCredentialsExactly(w: World, st: State)
    requires w.cfg.auth.scheme == ClientCredentials
    ensures var a := AuthHeader(w, st);
            if st.token.Some? then a == Step(st, Ok(st.token))
            else if w.cfg.auth.tokenUrl == None || w.cfg.auth.tokenUrl == Some("")
            then a == Step(st, Err(Unavailable(NoTokenUrl)))
            else
              var reply := w.replies(st.log + [TokenPost(w.cfg.auth.tokenUrl.value)]);
              && a.st.log == st.log + [TokenPost(w.cfg.auth.tokenUrl.value)]
              && match reply
                 case Body(Obj(fields)) =>
                   if "access_token" in fields
                   then a.out == Ok(Some(w.cards.show(fields["access_token"]))) && a.st.token == a.out.value
                   else a.out == Err(Unavailable(TokenFailed(reply))) && a.st.token == None
                 case Body(_) => a.out == Err(Malformed(reply)) && a.st.token == None
                 case _ => a.out == Err(Unavailable(TokenFailed(reply))) && a.st.token == None
  {
  }

  /**
   Without configured auth: nothing is sent unless a 1.0 card requires something; then the flow
   selected from it, once and for all, is granted a token, and that token is sent.
   */
  lemma InteractiveExactly(w: World, st: State)
    requires w.cfg.auth.scheme == NoAuth
    ensures var a := AuthHeader(w, st);
            var needed := st.cardV1.Some? && st.cardV1.value.securityRequirements != [];
            var chosen :=
              if st.resolved then Some(st.flow) else if needed then w.cards.selectFlow(st.cardV1.value) else Some(None);
            && (chosen == None ==> a.out == Err(OAuthFailed) && a.st.log == st.log && !a.st.resolved)
            && (chosen == Some(None) ==> a.out == Ok(None) && a.st.log == st.log)
            && (chosen.Some? && chosen.value.Some? ==>
                 && a.st.log == st.log + [Grant(chosen.value.value)] && a.st.flow == chosen.value
                 && match w.grants(a.st.log)
                    case Some(secret) => a.out == Ok(Some(secret))
                    case None => a.out == Err(OAuthFailed))
            && (chosen.Some? && (st.resolved || needed) ==> a.st.resolved && a.st.flow == chosen.value)
            && a.st.httpOpen == (st.httpOpen || (needed && !st.resolved))
  {
  }

  /** With mutual TLS, or a bearer scheme without a token, no header is sent and nothing is asked. */
  lemma NoHeaderExactly(w: World, st: State)
    requires w.cfg.auth.scheme == MutualTls || (w.cfg.auth.scheme == Bearer && w.cfg.auth.bearerToken.None?)
    requires !st.resolved
    ensures AuthHeader(w, st) == Step(st, Ok(None))
  {
  }
}
