/** The client's guarantees over whole runs, drawn from the run invariant. */
module ClientTheorems {
  import opened Wrappers
  import opened Json
  import opened Negotiation
  import opened Policy
  import opened Streams
  import Urls
  import opened ClientSpec
  import opened ClientRuns

  lemma Reachable(w: World, card: Option<AgentCard>, http: bool, ops: seq<Op>)
    ensures Inv(w, Run(w, Initial(card, http), ops))
  {
    RunKeeps(w, Initial(card, http), ops);
  }

  /**
   Credentials never leave home: whatever operations ran and whatever the network answered,
   an RPC POST with an Authorization header went to a URL that passes the policy and has the
   origin the card was discovered at; and no token was ever fetched or granted for a card
   whose RPC URL fails that test. A header is sent exactly when a token is configured for
   bearer auth, always for client credentials, never for mTLS, and without configured auth
   exactly when the card's interactive flow was selected.
   */
  lemma CredentialsStayHome(w: World, card: Option<AgentCard>, http: bool, ops: seq<Op>, r: Request)
    requires Starts(w, card) && r in Run(w, Initial(card, http), ops).log
    ensures var st := Run(w, Initial(card, http), ops);
            && (r.Rpc? && r.bearer.Some? ==> Home(w, r.url))
            && (r.TokenPost? || r.Grant? ==> st.card.Some? && Home(w, st.card.value.url))
            && (r.Rpc? ==> (r.bearer.Some? <==>
                 match w.cfg.auth.scheme
                 case Bearer => w.cfg.auth.bearerToken.Some?
                 case ClientCredentials => true
                 case MutualTls => false
                 case NoAuth => st.flow.Some?))
  {
    Reachable(w, card, http, ops);
  }

  /** With an allowlist or strict mode, every RPC POST of every run passes the policy, so its host is listed. */
  lemma GuardedPostsPass(w: World, card: Option<AgentCard>, http: bool, ops: seq<Op>, r: Request)
    requires Guarded(w) && r in Run(w, Initial(card, http), ops).log && r.Rpc?
    ensures Passes(w.net, w.cfg.policy, r.url)
    ensures exists pat :: pat in w.cfg.policy.allowlist && w.net.glob(HostOf(w.net, r.url), pat)
  {
    Reachable(w, card, http, ops);
    PassedHostIsAllowed(w.net, w.cfg.policy, r.url);
  }

  /**
   Every POST of a run speaks the one negotiated version: the 1.0 methods with version header
   and effective tenant, or the legacy methods with neither; ListTasks only ever to a 1.0 peer;
   and all POSTs go to the single URL of the adopted card.
   */
  lemma PostsSpeakNegotiatedVersion(w: World, card: Option<AgentCard>, http: bool, ops: seq<Op>)
    ensures var st := Run(w, Initial(card, http), ops);
            forall r :: r in st.log && r.Rpc? ==>
              && st.version.Some? && SpeaksVersion(w, st, r) && MethodFits(r)
              && (r.rpcMethod == ListTasks ==> st.version == Some(V10))
              && st.card.Some? && r.url == st.card.value.url
              && (w.cfg.protocol.Pinned? ==> st.version.value == w.cfg.protocol.version)
  {
    Reachable(w, card, http, ops);
  }

  lemma {:induction false} RunAppend(w: World, s: State, first: seq<Op>, more: seq<Op>)
    ensures Run(w, s, first + more) == Run(w, Run(w, s, first), more)
    decreases |first|
  {
    if first == [] {
      assert first + more == more;
    } else {
      assert (first + more)[1..] == first[1..] + more;
      RunAppend(w, Exec(w, s, first[0]), first[1..], more);
    }
  }

  /**
   Card, version, 1.0 card and card tenant are written at most once in a run, as are the
   resolved flow and the fetched token; a version is never known without its card; nothing
   cached is asked for again; and what was sent or counted is never rewritten.
   */
  lemma WrittenOnce(w: World, card: Option<AgentCard>, http: bool, first: seq<Op>, more: seq<Op>)
    ensures var (s, t) := (Run(w, Initial(card, http), first), Run(w, Initial(card, http), first + more));
            Grows(s, t) && (t.version.Some? ==> t.card.Some?) && (t.cardTenant.Some? ==> t.cardV1.Some?)
  {
    RunAppend(w, Initial(card, http), first, more);
    Reachable(w, card, http, first);
    RunKeeps(w, Run(w, Initial(card, http), first), more);
  }

  /**
   Discovery of an unknown card: between one and max(1, max_retries) GETs, all to the well-known
   URL, retried exactly on HTTP failures; a failure of any kind leaves card, version, 1.0 card
   and tenant unset, and it is the HTTP failure of the last attempt exactly when that failed too.
   The first JSON reply is adopted, in whatever attempt it comes.
   */
  lemma DiscoverySpendsAttempts(w: World, s: State)
    requires Inv(w, s) && s.card.None?
    ensures var (d, n) := (Discover(w, s), if w.cfg.maxRetries < 1 then 1 else w.cfg.maxRetries);
            && 1 <= |d.st.log| - |s.log| <= n && s.log <= d.st.log
            && (forall i :: |s.log| <= i < |d.st.log| ==> d.st.log[i] == Get(Urls.DiscoveryUrl(w.cfg.cardUrl)))
            && (forall i :: |s.log| < i < |d.st.log| ==> w.replies(d.st.log[..i]).HttpFailure?)
            && (forall exc ::
                 d.out == Err(Unavailable(DiscoveryFailed(exc))) <==> w.replies(d.st.log) == HttpFailure(exc))
            && (w.replies(d.st.log).HttpFailure? ==> |d.st.log| - |s.log| == n)
            && (d.out.Err? ==> d.st == s.(httpOpen := true, log := d.st.log))
            && (match w.replies(d.st.log)
                case HttpFailure(_) => true
                case Body(raw) => d == Adopt(w, s.(httpOpen := true, log := d.st.log), raw)
                case reply => d.out == Err(Malformed(reply)))
  {
    AttemptsSpent(w, s, Attempts(w.cfg));
  }

  lemma {:induction false} AttemptsSpent(w: World, s: State, n: nat)
    requires Inv(w, s) && s.card.None? && n > 0
    ensures var d := TryDiscover(w, s, n);
            && 1 <= |d.st.log| - |s.log| <= n && s.log <= d.st.log
            && (forall i :: |s.log| <= i < |d.st.log| ==> d.st.log[i] == Get(Urls.DiscoveryUrl(w.cfg.cardUrl)))
            && (forall i :: |s.log| < i < |d.st.log| ==> w.replies(d.st.log[..i]).HttpFailure?)
            && (forall exc ::
                 d.out == Err(Unavailable(DiscoveryFailed(exc))) <==> w.replies(d.st.log) == HttpFailure(exc))
            && (w.replies(d.st.log).HttpFailure? ==> |d.st.log| - |s.log| == n)
            && (d.out.Err? ==> d.st == s.(httpOpen := true, log := d.st.log))
            && (match w.replies(d.st.log)
                case HttpFailure(_) => true
                case Body(raw) => d == Adopt(w, s.(httpOpen := true, log := d.st.log), raw)
                case reply => d.out == Err(Malformed(reply)))
    decreases n
  {
    var asked := Issue(s, Get(Urls.DiscoveryUrl(w.cfg.cardUrl)));
    LogStays(w, s, asked);
    match w.replies(asked.log)
    case HttpFailure(_) =>
      if n > 1 {
        AttemptsSpent(w, asked, n - 1);
        var d := TryDiscover(w, asked, n - 1);
        assert d.st.log[..|s.log| + 1] == asked.log;
      }
    case Body(raw) => AdoptKeeps(w, asked, raw);
    case _ =>
  }

  /** Once the version is settled as 1.0, nothing refuses the listing over its version. */
  lemma ListFromNotRefused(w: World, s: State, card: AgentCard, query: ListQuery)
    requires Inv(w, s) && s.card == Some(card) && s.version == Some(V10)
    ensures var l := ListFrom(w, s, card, query);
            l.out != Err(VersionMismatch) && l.st.version == Some(V10)
  {
    ListFromKeeps(w, s, card, query);
    var p := Authorize(w, s, card);
    assert p.out != Err(VersionMismatch);
  }

  lemma UndiscoveredAsks(w: World, s: State)
    requires Inv(w, s) && s.card.None?
    ensures var c := EnsureCard(w, s);
            && |s.log| < |c.st.log|
            && (forall i :: |s.log| <= i < |c.st.log| ==> c.st.log[i].Get?)
  {
    DiscoverySpendsAttempts(w, s);
    DiscoverKeeps(w, s);
    var d := Discover(w, s);
    if d.out.Ok? {
      SettleKeeps(w, d.st, d.out.value);
    }
  }

  /**
   Listing tasks of a peer that is not 1.0: always refused with a version error. The refusal is
   free of I/O exactly when the client is pinned to 0.3 or already knows the peer's card.
   */
  lemma ListRefusalIo(w: World, s: State, query: ListQuery)
    requires Inv(w, s)
    ensures var l := ListAll(w, s, query);
            && (l.out == Err(VersionMismatch) ==>
                 (l.st.log == s.log <==> w.cfg.protocol == Pinned(V03) || s.card.Some?))
            && (w.cfg.protocol == Pinned(V03) || (s.card.Some? && s.version == Some(V03)) ==>
                 l.out == Err(VersionMismatch) && l.st == s)
            && (l.st.version != Some(V10) ==>
                 l.out.Err? && forall i :: |s.log| <= i < |l.st.log| ==> l.st.log[i].Get?)
  {
    if w.cfg.protocol == Pinned(V03) {
    } else if s.card.Some? {
      SettleKeeps(w, s, s.card.value);
      var k := KnownPeer(w, s);
      if k.out.Ok? {
        assert EnsureCard(w, k.st) == Step(k.st, Ok(s.card.value));
        ListFromNotRefused(w, k.st, s.card.value, query);
      }
    } else {
      UndiscoveredAsks(w, s);
      EnsureCardKeeps(w, s);
      var c := EnsureCard(w, s);
      if c.out.Ok? && c.st.version == Some(V10) {
        ListFromNotRefused(w, c.st, c.out.value, query);
      }
    }
  }

  /** A peer undiscovered and not pinned is asked for its card before the listing is refused. */
  lemma ListRefusalCanCostIo(w: World, raw: Json)
    requires w.cfg.protocol == Auto && (forall sent :: w.replies(sent) == Body(raw))
    requires raw.Obj? && !IsV1Shape(raw) && !Offers(raw, V10) && w.cards.validateCard(raw).Some?
    ensures forall query :: ListAll(w, Initial(None, false), query).out == Err(VersionMismatch)
    ensures forall query :: ListAll(w, Initial(None, false), query).st.log == [Get(Urls.DiscoveryUrl(w.cfg.cardUrl))]
  {
    var asked := Issue(Initial(None, false), Get(Urls.DiscoveryUrl(w.cfg.cardUrl)));
    assert w.replies(asked.log) == Body(raw);
    assert TryDiscover(w, Initial(None, false), Attempts(w.cfg)) == Adopt(w, asked, raw);
  }

  // ---------- metrics ----------

  /** The metrics records a trace of requests calls for, with each call's true outcome. */
  function Metrics(w: World, log: seq<Request>): seq<Count> {
    if log == [] then []
    else Metrics(w, log[..|log| - 1]) + Record(w, log)
  }

  function Record(w: World, log: seq<Request>): seq<Count>
    requires log != []
  {
    var (r, reply) := (log[|log| - 1], w.replies(log));
    if !r.Rpc? then []
    else if r.rpcMethod == SendStreamingMessage then
      [Count(SendStreamingMessage,
             Consume(w, true, reply).ending == Finished)]
    else if r.rpcMethod == ListTasks && !(reply.Body? && !reply.json.Obj?) then
      [Count(ListTasks, reply.Body? && reply.json.Get("error").None? && reply.json.Get("result").Some?
                        && w.cards.validateListing(reply.json.Get("result").value).Some?)]
    else []
  }

  predicate Balanced(w: World, st: State) {
    st.counts == Metrics(w, st.log)
  }

  lemma MetricsAppend(w: World, log: seq<Request>, r: Request)
    ensures Metrics(w, log + [r]) == Metrics(w, log) + Record(w, log + [r])
  {
    assert (log + [r])[..|log + [r]| - 1] == log;
  }

  /** A step that neither POSTs a counted call nor counts one. */
  ghost predicate Quiet(w: World, s: State, t: State) {
    t.counts == s.counts && Metrics(w, t.log) == Metrics(w, s.log)
  }

  lemma AdoptSilent(w: World, s: State, raw: Json)
    ensures Adopt(w, s, raw).st.log == s.log && Adopt(w, s, raw).st.counts == s.counts
  {
  }

  lemma {:induction false} TryDiscoverQuiet(w: World, s: State, n: nat)
    requires n >= 1
    ensures Quiet(w, s, TryDiscover(w, s, n).st)
    decreases n
  {
    var r := Get(Urls.DiscoveryUrl(w.cfg.cardUrl));
    MetricsAppend(w, s.log, r);
    match w.replies(s.log + [r])
    case HttpFailure(_) =>
      if n > 1 {
        TryDiscoverQuiet(w, Issue(s, r), n - 1);
      }
    case Body(raw) => AdoptSilent(w, Issue(s, r), raw);
    case _ =>
  }

  lemma PrepareQuiet(w: World, s: State)
    ensures Quiet(w, s, EnsureCard(w, s).st) && Quiet(w, s, Prepare(w, s).st)
  {
    TryDiscoverQuiet(w, s, Attempts(w.cfg));
    var c := EnsureCard(w, s);
    if c.out.Ok? {
      AuthorizeQuiet(w, c.st, c.out.value);
    }
  }

  lemma TokenQuiet(w: World, s: State)
    ensures Quiet(w, s, FetchToken(w, s).st)
  {
    MetricsAppend(w, s.log, TokenPost(w.cfg.auth.tokenUrl.GetOr("")));
  }

  lemma GrantQuiet(w: World, s: State, flow: Flow)
    ensures Quiet(w, s, s.(log := s.log + [Grant(flow)]))
  {
    MetricsAppend(w, s.log, Grant(flow));
  }

  lemma AuthHeaderQuiet(w: World, s: State)
    ensures Quiet(w, s, AuthHeader(w, s).st)
  {
    var a := AuthHeader(w, s).st;
    if w.cfg.auth.scheme == Bearer && w.cfg.auth.bearerToken.Some? {
    } else if w.cfg.auth.scheme == ClientCredentials {
      TokenQuiet(w, s);
      assert a == FetchToken(w, s).st;
    } else {
      var f := CardFlow(w, s);
      assert f.st.log == s.log && f.st.counts == s.counts;
      if f.out.Ok? && f.out.value.Some? {
        GrantQuiet(w, f.st, f.out.value.value);
        assert a == f.st.(log := f.st.log + [Grant(f.out.value.value)]);
      } else {
        assert a == f.st;
      }
    }
  }

  lemma AuthorizeQuiet(w: World, s: State, card: AgentCard)
    ensures Quiet(w, s, Authorize(w, s, card).st)
  {
    AuthHeaderQuiet(w, s);
  }

  lemma SendBalanced(w: World, p: State, message: Json, skill: Option<string>, ready: (string, Option<string>))
    requires Balanced(w, p)
    ensures Balanced(w, SendPrepared(w, p, message, skill, ready).st)
  {
    MetricsAppend(w, p.log, Envelope(w, p, SendMethod(p), SendParams(message, skill), ready.0, ready.1));
  }

  lemma CancelBalanced(w: World, p: State, taskId: string, ready: (string, Option<string>))
    requires Balanced(w, p)
    ensures Balanced(w, Issue(p, Envelope(w, p, CancelMethod(p), CancelParams(taskId), ready.0, ready.1)))
  {
    MetricsAppend(w, p.log, Envelope(w, p, CancelMethod(p), CancelParams(taskId), ready.0, ready.1));
  }

  lemma ReadBalanced(w: World, p: State, r: Request)
    requires Balanced(w, p) && r.Rpc? && r.rpcMethod == ListTasks
    ensures Balanced(w, ReadListing(w, Issue(p, r), w.replies(p.log + [r])).st)
  {
    MetricsAppend(w, p.log, r);
  }

  lemma ListBalanced(w: World, s: State, card: AgentCard, query: ListQuery)
    requires Balanced(w, s)
    ensures Balanced(w, ListFrom(w, s, card, query).st)
  {
    AuthorizeQuiet(w, s, card);
    var p := Authorize(w, s, card);
    if p.out.Ok? {
      ReadBalanced(w, p.st, Envelope(w, p.st, ListTasks, ListParams(query), p.out.value.0, p.out.value.1));
    }
  }

  lemma SendTaskBalanced(w: World, s: State, message: Json, skill: Option<string>)
    requires Balanced(w, s)
    ensures Balanced(w, SendTask(w, s, message, skill).st)
  {
    PrepareQuiet(w, s);
    var p := Prepare(w, s);
    if p.out.Ok? {
      SendBalanced(w, p.st, message, skill, p.out.value);
    }
  }

  lemma CancelTaskBalanced(w: World, s: State, taskId: string)
    requires Balanced(w, s)
    ensures Balanced(w, Cancel(w, s, taskId).st)
  {
    PrepareQuiet(w, s);
    var p := Prepare(w, s);
    if p.out.Ok? {
      CancelBalanced(w, p.st, taskId, p.out.value);
    }
  }

  lemma ListAllBalanced(w: World, s: State, query: ListQuery)
    requires Balanced(w, s)
    ensures Balanced(w, ListAll(w, s, query).st)
  {
    var k := KnownPeer(w, s);
    if k.out.Ok? {
      PrepareQuiet(w, k.st);
      var c := EnsureCard(w, k.st);
      if c.out.Ok? && c.st.version == Some(V10) {
        ListBalanced(w, c.st, c.out.value, query);
      }
    }
  }

  lemma ExecBalanced(w: World, s: State, op: Op)
    requires Balanced(w, s)
    ensures Balanced(w, Exec(w, s, op))
  {
    match op
    case DoDiscover => TryDiscoverQuiet(w, s, Attempts(w.cfg));
    case DoSend(message, skill) => SendTaskBalanced(w, s, message, skill);
    case DoList(query) => ListAllBalanced(w, s, query);
    case DoCancel(taskId) => CancelTaskBalanced(w, s, taskId);
    case DoClose =>
  }

  /**
   Over every run the metrics say exactly what was sent: one record for each 1.0 streaming POST
   and each ListTasks POST, in order and with its true outcome, and none for anything else --
   except that a listing answered with JSON that is not an object goes unrecorded.
   */
  lemma {:induction false} MetricsAreFaithful(w: World, s: State, ops: seq<Op>)
    requires Balanced(w, s)
    ensures Balanced(w, Run(w, s, ops))
    decreases |ops|
  {
    if ops != [] {
      ExecBalanced(w, s, ops[0]);
      MetricsAreFaithful(w, Exec(w, s, ops[0]), ops[1..]);
    }
  }

  /** A listing answered with a JSON list is POSTed and fails, and leaves no metrics record. */
  lemma ListAnswerGoesUncounted(w: World, s: State, card: AgentCard, query: ListQuery)
    requires s.card == Some(card) && s.version == Some(V10) && w.cfg.protocol != Pinned(V03)
    requires Authorize(w, s, card).out.Ok? && forall sent :: w.replies(sent) == Body(Arr([]))
    ensures var (l, before) := (ListAll(w, s, query), Authorize(w, s, card).st);
            && l.out == Err(Malformed(Body(Arr([]))))
            && |l.st.log| == |before.log| + 1 && l.st.log[|before.log|].Rpc?
            && l.st.log[|before.log|].rpcMethod == ListTasks
            && l.st.counts == before.counts
  {
    var p := Authorize(w, s, card);
    var r := Envelope(w, p.st, ListTasks, ListParams(query), p.out.value.0, p.out.value.1);
    assert EnsureCard(w, s) == Step(s, Ok(card));
    assert ListAll(w, s, query) == ListFrom(w, s, card, query);
    assert w.replies(Issue(p.st, r).log) == Body(Arr([]));
  }

  // ---------- streaming, end to end ----------

  /**
   A drained task call that reached the peer: at most one POST, and the consumer receives exactly
   the artifacts up to and including the first terminal event; it fails exactly when a JSON-RPC
   error comes first, which the failure then quotes, or the stream breaks before any stop.
   */
  lemma SendDelivers(w: World, s: State, message: Json, skill: Option<string>)
    requires Inv(w, s) && Prepare(w, s).out.Ok?
    ensures var (p, sent) := (Prepare(w, s).st, SendTask(w, s, message, skill));
            var reply := w.replies(sent.st.log);
            && |sent.st.log| == |p.log| + 1 && p.log <= sent.st.log
            && (!reply.Sse? ==>
                 && sent.artifacts == []
                 && sent.failure == Some(Unavailable(StreamFailed(
                      if reply.HttpFailure? then reply.exc else w.cards.noStream(reply)))))
            && (reply.Sse? ==>
                 var events := ParseAll(Parser(w, p.version == Some(V10)), reply.payloads);
                 var k := StopIndex(events);
                 && sent.artifacts == Artifacts(events[..if k < |events| && events[k].Event? then k + 1 else k])
                 && sent.failure ==
                      if k == |events| then
                        if reply.broken.Some? then Some(Unavailable(StreamFailed(reply.broken.value))) else None
                      else if events[k].Event? then None
                      else Some(Unavailable(StreamRefused(events[k].error))))
  {
    var sent := SendTask(w, s, message, skill);
    var reply := w.replies(sent.st.log);
    if reply.Sse? {
      var events := ParseAll(Parser(w, Prepare(w, s).st.version == Some(V10)), reply.payloads);
      DrainDelivers(events, reply.broken);
      assert events[..|events|] == events;
    }
  }
}
