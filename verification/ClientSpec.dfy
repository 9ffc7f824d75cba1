/**
 The outbound client as a transition system: configuration, state, and one function per
 operation. The network is an arbitrary function of everything this client has sent so far,
 so a statement about every network covers every schedule of answers and failures.
 */
module ClientSpec {
  import opened Wrappers
  import opened Json
  import opened Negotiation
  import opened Policy
  import Urls
  import opened Streams

  datatype AgentCard = AgentCard(url: string, protocolVersion: string, details: Json)

  datatype CardV1 = CardV1(securityRequirements: seq<Json>, details: Json)

  datatype Scheme = NoAuth | ClientCredentials | MutualTls | Bearer

  datatype Auth = Auth(scheme: Scheme, bearerToken: Option<string>, tokenUrl: Option<string>)

  datatype Protocol = Auto | Pinned(version: Version)

  /** An interactive grant chosen from a card; only its identity matters here. */
  datatype Flow = Flow(id: int)

  datatype Listing = Listing(page: Json)

  /** Why an agent counts as unavailable, with what the message quotes. */
  datatype Reason =
    | HostDenied
    | DiscoveryFailed(exc: string)
    | UrlDenied(url: string)
    | OriginDiffers
    | NoTokenUrl
    | TokenFailed(reply: Reply)
    | StreamFailed(exc: string)
    | StreamRefused(error: Json)  // the peer answered with a JSON-RPC error
    | ListingRefused(error: Json) // likewise
    | ListingFailed(reply: Reply)

  datatype Error =
    | Unavailable(reason: Reason) // A2AAgentUnavailable
    | VersionMismatch             // A2AVersionError
    | OAuthFailed                 // A2AOAuthError
    | Malformed(reply: Reply)     // a decoding or validation error that propagates

  datatype Config = Config(
    cardUrl: string,
    protocol: Protocol,
    tenant: Option<string>,
    auth: Auth,
    policy: EndpointPolicy,
    maxRetries: int)

  /** Validators, projections and the interactive-flow selector. */
  datatype CardLibs = CardLibs(
    validateCard: Json -> Option<AgentCard>,
    dumpCard: AgentCard -> Json,
    validateCardV1: Json -> Option<CardV1>,
    projectCard: CardV1 -> AgentCard,
    selectFlow: CardV1 -> Option<Option<Flow>>, // None: no usable grant, A2AOAuthError
    validateListing: Json -> Option<Listing>,
    noStream: Reply -> string,                  // the exception a reply that is no event stream causes
    show: Json -> string)

  datatype Method = MessageSend | TasksCancel | SendStreamingMessage | CancelTask | ListTasks

  datatype ListQuery = ListQuery(tenant: Option<string>, filters: Json)

  datatype Params =
    | SendParams(message: Json, skill: Option<string>)
    | CancelParams(taskId: string)
    | ListParams(query: ListQuery)

  datatype Request =
    | Get(url: string)
    | TokenPost(url: string)
    | Grant(flow: Flow)
    | Rpc(
        url: string, rpcMethod: Method, params: Params, tenant: Option<string>,
        bearer: Option<string>, versionHeader: Option<string>, wantsStream: bool)

  datatype Reply =
    | HttpFailure(exc: string)
    | NotJson
    | Body(json: Json)
    | Sse(payloads: seq<Payload>, broken: Option<string>)

  /** One metrics record: a 1.0 call and whether it succeeded. */
  datatype Count = Count(rpcMethod: Method, ok: bool)

  datatype State = State(
    card: Option<AgentCard>,
    version: Option<Version>,
    cardV1: Option<CardV1>,
    cardTenant: Option<string>,
    flow: Option<Flow>,
    resolved: bool,
    token: Option<string>,
    httpOpen: bool,
    log: seq<Request>,
    counts: seq<Count>)

  datatype World = World(
    net: NetLibs, cards: CardLibs, streams: StreamLibs,
    grants: seq<Request> -> Option<string>, // None: the grant fails with A2AOAuthError
    replies: seq<Request> -> Reply,
    cfg: Config)

  datatype Step<+T> = Step(st: State, out: Result<T, Error>)

  /** The configuration of a client built from a URL with nothing but its auth and policy given. */
  function DefaultConfig(cardUrl: string, auth: Auth, policy: EndpointPolicy): Config {
    Config(cardUrl, Auto, None, auth, policy, 2)
  }

  /** A new client, with the HTTP client it was given, if any. */
  function Initial(card: Option<AgentCard>, http: bool): State {
    State(card, None, None, None, None, false, None, http, [], [])
  }

  function Issue(st: State, r: Request): State {
    st.(httpOpen := true, log := st.log + [r])
  }

  // ---------- discovery ----------

  function PickVersion(cfg: Config, raw: Json): Result<Version, Error> {
    if cfg.protocol.Auto? then Ok(SelectOutbound(raw, None))
    else
      var chosen := SelectOutbound(raw, Some(cfg.protocol.version));
      if chosen == cfg.protocol.version then Ok(chosen) else Err(VersionMismatch)
  }

  predicate IsV1Shape(raw: Json) {
    raw.Get("supportedInterfaces").Some? && raw.Get("url").None?
  }

  function Adopt(w: World, st: State, raw: Json): Step<AgentCard> {
    var picked := PickVersion(w.cfg, raw);
    if picked.Err? then Step(st, Err(picked.error))
    else if IsV1Shape(raw) then
      var v1 := w.cards.validateCardV1(raw);
      if v1.None? then Step(st, Err(Malformed(Body(raw))))
      else
        var (url, tenant) := SelectInterfaceUrl(raw, picked.value);
        var card := w.cards.projectCard(v1.value).(url := url.GetOr(""), protocolVersion := VersionText(picked.value));
        Step(st.(cardV1 := v1, cardTenant := tenant, version := Some(picked.value), card := Some(card)), Ok(card))
    else
      var card := if raw.Obj? then w.cards.validateCard(raw) else None;
      if card.None? then Step(st, Err(Malformed(Body(raw))))
      else Step(st.(version := Some(picked.value), card := card), Ok(card.value))
  }

  function Attempts(cfg: Config): (n: nat)
    ensures n >= 1
  {
    if cfg.maxRetries < 1 then 1 else cfg.maxRetries
  }

  function TryDiscover(w: World, st: State, attempts: nat): Step<AgentCard>
    requires attempts >= 1
    decreases attempts
  {
    var asked := Issue(st, Get(Urls.DiscoveryUrl(w.cfg.cardUrl)));
    var reply := w.replies(asked.log);
    match reply
    case HttpFailure(exc) =>
      if attempts == 1 then Step(asked, Err(Unavailable(DiscoveryFailed(exc))))
      else TryDiscover(w, asked, attempts - 1)
    case Body(raw) => Adopt(w, asked, raw)
    case _ => Step(asked, Err(Malformed(reply)))
  }

  function Discover(w: World, st: State): Step<AgentCard> {
    if st.card.Some? then Step(st, Ok(st.card.value)) else TryDiscover(w, st, Attempts(w.cfg))
  }

  /** Settle the version of a card that was handed in rather than discovered. */
  function Settle(w: World, st: State, card: AgentCard): Step<AgentCard> {
    if st.version.Some? then Step(st, Ok(card))
    else
      var picked := PickVersion(w.cfg, w.cards.dumpCard(card));
      if picked.Err? then Step(st, Err(picked.error))
      else Step(st.(version := Some(picked.value)), Ok(card))
  }

  function EnsureCard(w: World, st: State): Step<AgentCard> {
    var d := Discover(w, st);
    if d.out.Err? then d else Settle(w, d.st, d.out.value)
  }

  // ---------- the endpoint guard and credentials ----------

  predicate SendsCredentials(cfg: Config, st: State) {
    cfg.auth.scheme != NoAuth || (st.cardV1.Some? && st.cardV1.value.securityRequirements != [])
  }

  function RpcUrl(w: World, st: State, card: AgentCard): Result<string, Error> {
    var creds := SendsCredentials(w.cfg, st);
    if !(creds || w.cfg.policy.allowlist != [] || w.cfg.policy.strict) then Ok(card.url)
    else if !Passes(w.net, w.cfg.policy, card.url) then Err(Unavailable(UrlDenied(card.url)))
    else if creds && OriginOf(w.net, card.url) != OriginOf(w.net, w.cfg.cardUrl) then Err(Unavailable(OriginDiffers))
    else Ok(card.url)
  }

  function CardFlow(w: World, st: State): Step<Option<Flow>> {
    if st.resolved then Step(st, Ok(st.flow))
    else if st.cardV1.None? || w.cfg.auth.scheme != NoAuth || st.cardV1.value.securityRequirements == [] then
      Step(st, Ok(None))
    else
      var online := st.(httpOpen := true);
      var chosen := w.cards.selectFlow(st.cardV1.value);
      if chosen.None? then Step(online, Err(OAuthFailed))
      else Step(online.(flow := chosen.value, resolved := true), Ok(chosen.value))
  }

  function FetchToken(w: World, st: State): Step<string> {
    if st.token.Some? then Step(st, Ok(st.token.value))
    else if w.cfg.auth.tokenUrl.GetOr("") == "" then Step(st, Err(Unavailable(NoTokenUrl)))
    else
      var asked := Issue(st, TokenPost(w.cfg.auth.tokenUrl.value));
      var reply := w.replies(asked.log);
      if reply.Body? && !reply.json.Obj? then Step(asked, Err(Malformed(reply)))
      else if reply.Body? && reply.json.Get("access_token").Some? then
        var token := w.cards.show(reply.json.Get("access_token").value);
        Step(asked.(token := Some(token)), Ok(token))
      else Step(asked, Err(Unavailable(TokenFailed(reply))))
  }

  /** The bearer value of the Authorization header, when one is sent. */
  function AuthHeader(w: World, st: State): Step<Option<string>> {
    if w.cfg.auth.scheme == Bearer && w.cfg.auth.bearerToken.Some? then Step(st, Ok(w.cfg.auth.bearerToken))
    else if w.cfg.auth.scheme == ClientCredentials then
      var t := FetchToken(w, st);
      if t.out.Err? then Step(t.st, Err(t.out.error)) else Step(t.st, Ok(Some(t.out.value)))
    else
      var f := CardFlow(w, st);
      if f.out.Err? then Step(f.st, Err(f.out.error))
      else if f.out.value.None? then Step(f.st, Ok(None))
      else
        var asked := f.st.(log := f.st.log + [Grant(f.out.value.value)]);
        var secret := w.grants(asked.log);
        Step(asked, if secret.Some? then Ok(secret) else Err(OAuthFailed))
  }

  function EffectiveTenant(cfg: Config, st: State): Option<string> {
    if cfg.tenant.Some? then cfg.tenant else st.cardTenant
  }

  // ---------- the three RPC operations ----------

  /** Ensure a card, guard its URL, then gather credentials: the common front of every call. */
  function Prepare(w: World, st: State): Step<(string, Option<string>)> {
    var c := EnsureCard(w, st);
    if c.out.Err? then Step(c.st, Err(c.out.error)) else Authorize(w, c.st, c.out.value)
  }

  function Authorize(w: World, st: State, card: AgentCard): Step<(string, Option<string>)> {
    var url := RpcUrl(w, st, card);
    if url.Err? then Step(st, Err(url.error))
    else
      var auth := AuthHeader(w, st);
      if auth.out.Err? then Step(auth.st, Err(auth.out.error)) else Step(auth.st, Ok((url.value, auth.out.value)))
  }

  /** The POST a call sends once its URL and credentials are settled. */
  function Envelope(w: World, st: State, op: Method, params: Params, url: string, bearer: Option<string>): Request {
    var v1 := st.version == Some(V10);
    var own := if params.ListParams? then params.query.tenant else None;
    var tenant := if EffectiveTenant(w.cfg, st).Some? then EffectiveTenant(w.cfg, st) else own;
    Rpc(url, op, params, if v1 then tenant else None, bearer,
        if v1 then Some("1.0") else None, params.SendParams?)
  }

  /** What a drained task stream hands to its consumer. */
  datatype Sent = Sent(st: State, artifacts: seq<Artifact>, failure: Option<Error>)

  function SendTask(w: World, st: State, message: Json, skill: Option<string>): Sent {
    var p := Prepare(w, st);
    if p.out.Err? then Sent(p.st, [], Some(p.out.error))
    else SendPrepared(w, p.st, message, skill, p.out.value)
  }

  function SendMethod(st: State): Method {
    if st.version == Some(V10) then SendStreamingMessage else MessageSend
  }

  function SendPrepared(w: World, st: State, message: Json, skill: Option<string>,
                        ready: (string, Option<string>)): Sent
  {
    var v1 := st.version == Some(V10);
    var posted := Issue(st, Envelope(w, st, SendMethod(st), SendParams(message, skill), ready.0, ready.1));
    var d := Consume(w, v1, w.replies(posted.log));
    var ok := d.ending == Finished;
    Sent(if v1 then posted.(counts := posted.counts + [Count(SendStreamingMessage, ok)]) else posted,
         d.artifacts, StreamFailure(d.ending))
  }

  /** What the consumer of a stream that ended so is raised. */
  function StreamFailure(ending: Ending): Option<Error> {
    match ending
    case Finished => None
    case Refused(error) => Some(Unavailable(StreamRefused(error)))
    case Broken(exc) => Some(Unavailable(StreamFailed(exc)))
  }

  /** A reply that is not an event stream, or no reply at all, counts as a broken one. */
  function Consume(w: World, v1: bool, reply: Reply): Delivery {
    match reply
    case Sse(payloads, broken) => Drain(ParseAll(Parser(w, v1), payloads), broken)
    case HttpFailure(exc) => Delivery([], Broken(exc))
    case _ => Delivery([], Broken(w.cards.noStream(reply)))
  }

  function Parser(w: World, v1: bool): Payload -> Parsed {
    (d: Payload) => if v1 then ParseV1(w.streams, d) else ParseLegacy(w.streams, d)
  }

  function CancelMethod(st: State): Method {
    if st.version == Some(V10) then CancelTask else TasksCancel
  }

  function Cancel(w: World, st: State, taskId: string): Step<()> {
    var p := Prepare(w, st);
    if p.out.Err? then Step(p.st, Err(p.out.error))
    else
      var r := Envelope(w, p.st, CancelMethod(p.st), CancelParams(taskId), p.out.value.0, p.out.value.1);
      Step(Issue(p.st, r), Ok(()))
  }

  /** The early refusal of a peer that is already known. */
  function KnownPeer(w: World, st: State): Step<()> {
    if w.cfg.protocol == Pinned(V03) then Step(st, Err(VersionMismatch))
    else if st.card.None? then Step(st, Ok(()))
    else
      var s := Settle(w, st, st.card.value);
      if s.out.Err? then Step(s.st, Err(s.out.error))
      else if s.st.version != Some(V10) then Step(s.st, Err(VersionMismatch))
      else Step(s.st, Ok(()))
  }

  function ListAll(w: World, st: State, query: ListQuery): Step<Listing> {
    var k := KnownPeer(w, st);
    if k.out.Err? then Step(k.st, Err(k.out.error))
    else
      var c := EnsureCard(w, k.st);
      if c.out.Err? then Step(c.st, Err(c.out.error))
      else if c.st.version != Some(V10) then Step(c.st, Err(VersionMismatch))
      else ListFrom(w, c.st, c.out.value, query)
  }

  function ListFrom(w: World, st: State, card: AgentCard, query: ListQuery): Step<Listing> {
    var p := Authorize(w, st, card);
    if p.out.Err? then Step(p.st, Err(p.out.error))
    else
      var posted := Issue(p.st, Envelope(w, p.st, ListTasks, ListParams(query), p.out.value.0, p.out.value.1));
      ReadListing(w, posted, w.replies(posted.log))
  }

  function ListingFailure(reply: Reply): Reason {
    if reply.Body? && reply.json.Get("error").Some? then ListingRefused(reply.json.Get("error").value)
    else ListingFailed(reply)
  }

  /** A reply that is JSON but not an object escapes both handlers, and with them the counter. */
  function ReadListing(w: World, st: State, reply: Reply): Step<Listing> {
    if reply.Body? && !reply.json.Obj? then Step(st, Err(Malformed(reply)))
    else
      var page := if reply.Body? && reply.json.Get("error").None? && reply.json.Get("result").Some?
                  then w.cards.validateListing(reply.json.Get("result").value) else None;
      var counted := st.(counts := st.counts + [Count(ListTasks, page.Some?)]);
      Step(counted, if page.Some? then Ok(page.value) else Err(Unavailable(ListingFailure(reply))))
  }

  function Close(st: State): State {
    st.(httpOpen := false)
  }
}
