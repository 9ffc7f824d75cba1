/**
 What holds over every sequential run of client operations, against every network.
 */
module ClientRuns {
  import opened Wrappers
  import opened Json
  import opened Negotiation
  import opened Policy
  import opened Streams
  import Urls
  import opened ClientSpec

  datatype Op =
    | DoDiscover
    | DoSend(message: Json, skill: Option<string>)
    | DoList(query: ListQuery)
    | DoCancel(taskId: string)
    | DoClose

  function Exec(w: World, st: State, op: Op): State {
    match op
    case DoDiscover => Discover(w, st).st
    case DoSend(message, skill) => SendTask(w, st, message, skill).st
    case DoList(query) => ListAll(w, st, query).st
    case DoCancel(taskId) => Cancel(w, st, taskId).st
    case DoClose => Close(st)
  }

  function Run(w: World, st: State, ops: seq<Op>): State
    decreases |ops|
  {
    if ops == [] then st else Run(w, Exec(w, st, ops[0]), ops[1..])
  }

  /** A client starts from a URL, or from a card whose URL then stands in for the discovery URL. */
  predicate Starts(w: World, card: Option<AgentCard>) {
    card.Some? ==> w.cfg.cardUrl == card.value.url
  }

  // ---------- the invariant ----------

  /** A URL credentials may go to: it passes the policy and shares the card's origin. */
  predicate Home(w: World, url: string) {
    Passes(w.net, w.cfg.policy, url) && OriginOf(w.net, url) == OriginOf(w.net, w.cfg.cardUrl)
  }

  predicate Guarded(w: World) {
    w.cfg.policy.allowlist != [] || w.cfg.policy.strict
  }

  /** Interactive OAuth applies: the card is a 1.0 card with requirements, and no auth is configured. */
  predicate Interactive(w: World, st: State) {
    w.cfg.auth.scheme == NoAuth && st.cardV1.Some? && st.cardV1.value.securityRequirements != []
  }

  predicate FieldsAgree(w: World, st: State) {
    && (st.version.Some? ==> st.card.Some?)
    && (st.cardV1.Some? ==> st.version.Some?)
    && (st.cardTenant.Some? ==> st.cardV1.Some?)
    && (st.version.Some? && w.cfg.protocol.Pinned? ==> st.version.value == w.cfg.protocol.version)
    && (st.flow.Some? ==> st.resolved)
    && (st.resolved ==> Interactive(w, st))
    && (st.token.Some? ==> w.cfg.auth.scheme == ClientCredentials)
  }

  /** The bearer value is the configured token, the fetched token, or comes from the card's one flow. */
  predicate BearerFits(w: World, st: State, bearer: Option<string>) {
    match w.cfg.auth.scheme
    case Bearer => bearer == w.cfg.auth.bearerToken
    case ClientCredentials => bearer.Some? && bearer == st.token
    case MutualTls => bearer.None?
    case NoAuth => (bearer.Some? <==> st.flow.Some?) && (Interactive(w, st) ==> st.resolved)
  }

  /** Method family, version header and tenant of a POST, as the negotiated version demands. */
  predicate SpeaksVersion(w: World, st: State, r: Request)
    requires r.Rpc?
  {
    if st.version == Some(V10) then
      && (r.rpcMethod == SendStreamingMessage || r.rpcMethod == CancelTask || r.rpcMethod == ListTasks)
      && r.versionHeader == Some("1.0")
      && r.tenant ==
           if w.cfg.tenant.Some? then w.cfg.tenant
           else if st.cardTenant.Some? then st.cardTenant
           else if r.params.ListParams? then r.params.query.tenant else None
    else
      && (r.rpcMethod == MessageSend || r.rpcMethod == TasksCancel)
      && r.versionHeader.None? && r.tenant.None?
  }

  predicate MethodFits(r: Request)
    requires r.Rpc?
  {
    && (r.params.SendParams? <==> r.rpcMethod == MessageSend || r.rpcMethod == SendStreamingMessage)
    && (r.params.CancelParams? <==> r.rpcMethod == TasksCancel || r.rpcMethod == CancelTask)
    && (r.wantsStream <==> r.params.SendParams?)
  }

  predicate GoodRequest(w: World, st: State, r: Request) {
    match r
    case Get(url) => url == Urls.DiscoveryUrl(w.cfg.cardUrl)
    case TokenPost(url) =>
      && w.cfg.auth.scheme == ClientCredentials && Some(url) == w.cfg.auth.tokenUrl
      && st.card.Some? && Home(w, st.card.value.url)
    case Grant(flow) => st.flow == Some(flow) && st.card.Some? && Home(w, st.card.value.url)
    case Rpc(url, _, _, _, bearer, _, _) =>
      && st.card.Some? && st.version.Some? && url == st.card.value.url
      && (bearer.Some? ==> Home(w, url))
      && (Guarded(w) ==> Passes(w.net, w.cfg.policy, url))
      && BearerFits(w, st, bearer)
      && SpeaksVersion(w, st, r)
      && MethodFits(r)
  }

  ghost predicate Inv(w: World, st: State) {
    FieldsAgree(w, st) && forall r :: r in st.log ==> GoodRequest(w, st, r)
  }

  /** What is set stays set, what is logged stays logged, and what is cached is not asked for again. */
  ghost predicate Grows(s: State, t: State) {
    && (s.card.Some? ==> t.card == s.card && t.cardV1 == s.cardV1 && t.cardTenant == s.cardTenant)
    && (s.version.Some? ==> t.version == s.version)
    && (s.resolved ==> t.resolved && t.flow == s.flow)
    && (s.token.Some? ==> t.token == s.token)
    && s.log <= t.log && s.counts <= t.counts
    && (s.card.Some? ==> forall i :: |s.log| <= i < |t.log| ==> !t.log[i].Get?)
    && (s.token.Some? ==> forall i :: |s.log| <= i < |t.log| ==> !t.log[i].TokenPost?)
  }

  ghost predicate Keeps(w: World, s: State, t: State) {
    Inv(w, t) && Grows(s, t)
  }

  lemma GrowsTransitive(a: State, b: State, c: State)
    requires Grows(a, b) && Grows(b, c)
    ensures Grows(a, c)
  {
  }

  /** Good requests stay good while the state grows. */
  lemma GoodStays(w: World, s: State, t: State, r: Request)
    requires FieldsAgree(w, s) && FieldsAgree(w, t) && Grows(s, t) && GoodRequest(w, s, r)
    ensures GoodRequest(w, t, r)
  {
  }

  lemma LogStays(w: World, s: State, t: State)
    requires Inv(w, s) && FieldsAgree(w, t) && Grows(s, t)
    requires forall i :: |s.log| <= i < |t.log| ==> GoodRequest(w, t, t.log[i])
    ensures Inv(w, t)
  {
    forall r | r in t.log
      ensures GoodRequest(w, t, r)
    {
      var i :| 0 <= i < |t.log| && t.log[i] == r;
      if i < |s.log| {
        assert s.log[i] == r;
        GoodStays(w, s, t, r);
      }
    }
  }

  // ---------- every part of every operation keeps it ----------

  lemma AdoptKeeps(w: World, s: State, raw: Json)
    requires Inv(w, s) && s.card.None?
    ensures Keeps(w, s, Adopt(w, s, raw).st)
    ensures var a := Adopt(w, s, raw);
            if a.out.Ok? then a.st.card == Some(a.out.value) && a.st.version.Some? else a.st == s
  {
    LogStays(w, s, Adopt(w, s, raw).st);
  }

  lemma {:induction false} TryDiscoverKeeps(w: World, s: State, n: nat)
    requires Inv(w, s) && s.card.None? && n >= 1
    ensures var d := TryDiscover(w, s, n);
            && Keeps(w, s, d.st)
            && (d.out.Ok? ==> d.st.card == Some(d.out.value) && d.st.version.Some?)
            && (d.out.Err? ==> d.st == s.(httpOpen := d.st.httpOpen, log := d.st.log))
            && |d.st.log| <= |s.log| + n
    decreases n
  {
    var asked := Issue(s, Get(Urls.DiscoveryUrl(w.cfg.cardUrl)));
    LogStays(w, s, asked);
    match w.replies(asked.log)
    case HttpFailure(_) =>
      if n > 1 {
        TryDiscoverKeeps(w, asked, n - 1);
      }
    case Body(raw) => AdoptKeeps(w, asked, raw);
    case _ =>
  }

  lemma DiscoverKeeps(w: World, s: State)
    requires Inv(w, s)
    ensures var d := Discover(w, s);
            Keeps(w, s, d.st) && (d.out.Ok? ==> d.st.card == Some(d.out.value))
  {
    if s.card.None? {
      TryDiscoverKeeps(w, s, Attempts(w.cfg));
    }
  }

  lemma SettleKeeps(w: World, s: State, card: AgentCard)
    requires Inv(w, s) && s.card == Some(card)
    ensures var d := Settle(w, s, card);
            && Keeps(w, s, d.st) && d.st.log == s.log && d.st.card == s.card
            && (d.out.Ok? ==> d.out.value == card && d.st.version.Some?)
            && (d.out.Err? ==> d.st == s && d.out.error == VersionMismatch)
  {
    LogStays(w, s, Settle(w, s, card).st);
  }

  lemma EnsureCardKeeps(w: World, s: State)
    requires Inv(w, s)
    ensures var d := EnsureCard(w, s);
            Keeps(w, s, d.st) && (d.out.Ok? ==> d.st.card == Some(d.out.value) && d.st.version.Some?)
  {
    DiscoverKeeps(w, s);
    var d := Discover(w, s);
    if d.out.Ok? {
      SettleKeeps(w, d.st, d.out.value);
    }
  }

  lemma FetchTokenKeeps(w: World, s: State)
    requires Inv(w, s) && s.card.Some? && Home(w, s.card.value.url) && w.cfg.auth.scheme == ClientCredentials
    ensures Keeps(w, s, FetchToken(w, s).st)
    ensures FetchToken(w, s).out.Ok? ==> FetchToken(w, s).st.token == Some(FetchToken(w, s).out.value)
  {
    LogStays(w, s, FetchToken(w, s).st);
  }

  lemma CardFlowKeeps(w: World, s: State)
    requires Inv(w, s) && w.cfg.auth.scheme != ClientCredentials
    ensures var f := CardFlow(w, s);
            && Keeps(w, s, f.st) && f.st.log == s.log && f.st.card == s.card && f.st.cardV1 == s.cardV1
            && (f.out.Ok? ==> f.out.value == f.st.flow && (Interactive(w, f.st) ==> f.st.resolved))
  {
    LogStays(w, s, CardFlow(w, s).st);
  }

  lemma GrantKeeps(w: World, s: State, flow: Flow)
    requires Inv(w, s) && s.flow == Some(flow) && s.card.Some? && Home(w, s.card.value.url)
    ensures Keeps(w, s, s.(log := s.log + [Grant(flow)]))
  {
    LogStays(w, s, s.(log := s.log + [Grant(flow)]));
  }

  /** Gathering credentials, once the URL guard has let the card's URL through. */
  lemma AuthHeaderKeeps(w: World, s: State, card: AgentCard)
    requires Inv(w, s) && s.card == Some(card) && s.version.Some?
    requires RpcUrl(w, s, card).Ok?
    ensures var a := AuthHeader(w, s);
            && Keeps(w, s, a.st)
            && (a.out.Ok? ==> BearerFits(w, a.st, a.out.value) && (a.out.value.Some? ==> Home(w, card.url)))
  {
    if w.cfg.auth.scheme == ClientCredentials {
      FetchTokenKeeps(w, s);
    } else if !(w.cfg.auth.scheme == Bearer && w.cfg.auth.bearerToken.Some?) {
      CardFlowKeeps(w, s);
      var f := CardFlow(w, s);
      if f.out.Ok? && f.out.value.Some? {
        GrantKeeps(w, f.st, f.out.value.value);
        GrowsTransitive(s, f.st, AuthHeader(w, s).st);
      }
    }
  }

  lemma AuthorizeKeeps(w: World, s: State, card: AgentCard)
    requires Inv(w, s) && s.card == Some(card) && s.version.Some?
    ensures var a := Authorize(w, s, card);
            && Keeps(w, s, a.st)
            && (a.out.Ok? ==>
                 && a.out.value.0 == card.url
                 && BearerFits(w, a.st, a.out.value.1)
                 && (a.out.value.1.Some? ==> Home(w, card.url))
                 && (Guarded(w) ==> Passes(w.net, w.cfg.policy, card.url)))
  {
    if RpcUrl(w, s, card).Ok? {
      AuthHeaderKeeps(w, s, card);
    }
  }

  lemma PrepareKeeps(w: World, s: State)
    requires Inv(w, s)
    ensures var p := Prepare(w, s);
            && Keeps(w, s, p.st)
            && (p.out.Ok? ==> Ready(w, p.st, p.out.value.0, p.out.value.1))
  {
    EnsureCardKeeps(w, s);
    var c := EnsureCard(w, s);
    if c.out.Ok? {
      AuthorizeKeeps(w, c.st, c.out.value);
    }
  }

  /** The state from which a POST may be sent. */
  ghost predicate Ready(w: World, st: State, url: string, bearer: Option<string>) {
    && Inv(w, st) && st.card.Some? && st.version.Some? && url == st.card.value.url
    && BearerFits(w, st, bearer)
    && (bearer.Some? ==> Home(w, url))
    && (Guarded(w) ==> Passes(w.net, w.cfg.policy, url))
  }

  predicate Fits(st: State, op: Method, params: Params) {
    match params
    case SendParams(_, _) => op == SendMethod(st)
    case CancelParams(_) => op == CancelMethod(st)
    case ListParams(_) => st.version == Some(V10) && op == ListTasks
  }

  lemma PostKeeps(w: World, s: State, op: Method, params: Params, url: string, bearer: Option<string>)
    requires Ready(w, s, url, bearer) && Fits(s, op, params)
    ensures Keeps(w, s, Issue(s, Envelope(w, s, op, params, url, bearer)))
  {
    LogStays(w, s, Issue(s, Envelope(w, s, op, params, url, bearer)));
  }

  lemma CountKeeps(w: World, s: State, c: Count)
    requires Inv(w, s)
    ensures Keeps(w, s, s.(counts := s.counts + [c]))
  {
    LogStays(w, s, s.(counts := s.counts + [c]));
  }

  lemma SendPreparedKeeps(w: World, s: State, message: Json, skill: Option<string>, ready: (string, Option<string>))
    requires Ready(w, s, ready.0, ready.1)
    ensures Keeps(w, s, SendPrepared(w, s, message, skill, ready).st)
  {
    var r := Envelope(w, s, SendMethod(s), SendParams(message, skill), ready.0, ready.1);
    PostKeeps(w, s, SendMethod(s), SendParams(message, skill), ready.0, ready.1);
    var posted := Issue(s, r);
    var d := Consume(w, s.version == Some(V10), w.replies(posted.log));
    CountKeeps(w, posted, Count(SendStreamingMessage, d.ending == Finished));
  }

  lemma SendKeeps(w: World, s: State, message: Json, skill: Option<string>)
    requires Inv(w, s)
    ensures Keeps(w, s, SendTask(w, s, message, skill).st)
  {
    PrepareKeeps(w, s);
    var p := Prepare(w, s);
    if p.out.Ok? {
      SendPreparedKeeps(w, p.st, message, skill, p.out.value);
    }
  }

  lemma CancelKeeps(w: World, s: State, taskId: string)
    requires Inv(w, s)
    ensures Keeps(w, s, Cancel(w, s, taskId).st)
  {
    PrepareKeeps(w, s);
    var p := Prepare(w, s);
    if p.out.Ok? {
      PostKeeps(w, p.st, CancelMethod(p.st), CancelParams(taskId), p.out.value.0, p.out.value.1);
    }
  }

  lemma ReadListingKeeps(w: World, s: State, reply: Reply)
    requires Inv(w, s)
    ensures Keeps(w, s, ReadListing(w, s, reply).st)
  {
    CountKeeps(w, s, Count(ListTasks, true));
    CountKeeps(w, s, Count(ListTasks, false));
  }

  lemma ListFromKeeps(w: World, s: State, card: AgentCard, query: ListQuery)
    requires Inv(w, s) && s.card == Some(card) && s.version == Some(V10)
    ensures Keeps(w, s, ListFrom(w, s, card, query).st)
  {
    AuthorizeKeeps(w, s, card);
    var p := Authorize(w, s, card);
    if p.out.Ok? {
      PostKeeps(w, p.st, ListTasks, ListParams(query), p.out.value.0, p.out.value.1);
      var posted := Issue(p.st, Envelope(w, p.st, ListTasks, ListParams(query), p.out.value.0, p.out.value.1));
      ReadListingKeeps(w, posted, w.replies(posted.log));
      GrowsTransitive(s, p.st, posted);
    }
  }

  lemma KnownPeerKeeps(w: World, s: State)
    requires Inv(w, s)
    ensures Keeps(w, s, KnownPeer(w, s).st)
  {
    if s.card.Some? {
      SettleKeeps(w, s, s.card.value);
    }
  }

  lemma ListKeeps(w: World, s: State, query: ListQuery)
    requires Inv(w, s)
    ensures Keeps(w, s, ListAll(w, s, query).st)
  {
    KnownPeerKeeps(w, s);
    var k := KnownPeer(w, s);
    if k.out.Ok? {
      EnsureCardKeeps(w, k.st);
      var c := EnsureCard(w, k.st);
      GrowsTransitive(s, k.st, c.st);
      if c.out.Ok? && c.st.version == Some(V10) {
        ListFromKeeps(w, c.st, c.out.value, query);
      }
    }
  }

  lemma ExecKeeps(w: World, s: State, op: Op)
    requires Inv(w, s)
    ensures Keeps(w, s, Exec(w, s, op))
  {
    match op
    case DoDiscover => DiscoverKeeps(w, s);
    case DoSend(message, skill) => SendKeeps(w, s, message, skill);
    case DoList(query) => ListKeeps(w, s, query);
    case DoCancel(taskId) => CancelKeeps(w, s, taskId);
    case DoClose => LogStays(w, s, Close(s));
  }

  /** A run is its operations one after the other. */
  lemma {:induction false} RunStep(w: World, st: State, ops: seq<Op>, op: Op)
    ensures Run(w, st, []) == st
    ensures Run(w, st, ops + [op]) == Exec(w, Run(w, st, ops), op)
    decreases |ops|
  {
    if ops == [] {
      assert [] + [op] == [op] && [op][1..] == [];
      assert Run(w, st, [op]) == Run(w, Exec(w, st, op), [op][1..]);
    } else {
      assert (ops + [op])[0] == ops[0] && (ops + [op])[1..] == ops[1..] + [op];
      RunStep(w, Exec(w, st, ops[0]), ops[1..], op);
    }
  }

  lemma {:induction false} RunKeeps(w: World, s: State, ops: seq<Op>)
    requires Inv(w, s)
    ensures Keeps(w, s, Run(w, s, ops))
    decreases |ops|
  {
    if ops != [] {
      var t := Exec(w, s, ops[0]);
      ExecKeeps(w, s, ops[0]);
      RunKeeps(w, t, ops[1..]);
      GrowsTransitive(s, t, Run(w, t, ops[1..]));
    }
  }
}
