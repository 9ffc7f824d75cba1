# Verified model of Prismal's A2A client, cards and coordination loops

This project models, in Dafny, the stateful parts of Prismal that carry promises across
several operations, and proves those promises:

- **Outbound A2A.** One client object (`A2AClient.dfy`) discovers a remote Agent Card, adopts
  it, settles a protocol version, guards the RPC URL, gathers credentials, POSTs and streams.
  Every method is proved equal to a transition function (`ClientSpec.dfy`); the guarantees are
  then proved over every sequential run of operations against every network (`ClientRuns.dfy`,
  `ClientTheorems.dfy`). Event decoding and draining are in `Streams.dfy`, version negotiation
  in `Negotiation.dfy`, the endpoint policy in `Policy.dfy`. What these mean is stated a second
  time without them: events by their raw JSON (`StreamMeaning.dfy`), cards by theirs
  (`CardReading.dfy`), the guard by parsed URLs (`ClientGuards.dfy`), and each call by what it
  POSTs and returns (`ClientCalls.dfy`). The connection pool
  (`ConnectionManager.dfy`, `PoolSpec.dfy`) and the agent node (`AgentNode.dfy`,
  `NodeSpec.dfy`) sit on top of the same client objects.
- **Published Agent Cards.** The builder and its memo table (`CardCache.dfy`, `CardSpec.dfy`),
  the URL contract with the client (`Urls.dfy`), and the whole way from a published card to a
  client that has adopted it (`CardToClient.dfy`).
- **Bounded fan-out.** A semaphore-bounded set of workers as start and finish steps under any
  scheduler (`Parallel.dfy`).
- **Settings reference generator.** The line scanner (`SettingsScan.dfy`), the run grouping
  (`SettingsGroups.dfy`) and the write-or-check loop (`SettingsSync.dfy`).
- **Human approval loop** (`Hitl.dfy`), **swarm handoffs** (`Swarm.dfy`), **keyword store**
  (`KeywordStore.dfy`) and the **analysis supervisor graph** (`Supervisor.dfy`).

How the model is set up:

- The network of a client is an arbitrary function of everything that client has sent so far,
  so a statement about every such function covers every schedule of answers and failures. The
  request log is a field of the client; a pool gives each client its own network.
- Libraries are function-typed parameters about which nothing is assumed: URL parsing, glob
  and IP-literal matching, the validators and projections of the card and event models, the
  choice of an interactive OAuth flow, its token, the sanitizer, title-casing, the installed
  package version, tokenising and scoring, and the text of exceptions other than the one that
  quotes a peer's JSON-RPC error.
- Hosts and schemes come out of URL parsing in lower case. An Authorization header is modelled
  by its bearer value. An interactive grant is one log entry, whatever HTTP it does inside.
- A generator method is read to its end by its consumer.
- Constants that the code fixes but does not depend on are parameters: the iteration and hop
  caps, routing and rule tables, leaf names, allow-lists.

## Where the code and its promises part

For each of these there is a lemma at a failing input and an exact condition for when the promise
holds.

- `list_tasks` promises no I/O for a 0.3 peer. A client that has not discovered the peer and is
  not pinned asks for its card first (`ListRefusalCanCostIo`); the refusal is free of I/O
  exactly when the client is pinned to 0.3 or already holds a card (`ListRefusalIo`).
- A listing answered with a JSON list is sent and fails without a metrics record
  (`ListAnswerGoesUncounted`); metrics miss exactly the listings answered with JSON that is not
  an object (`MetricsAreFaithful`).
- The card cache key holds skill ids but not their tags, so retagging a skill serves the old
  card (`StaleTagsServed`); a cached card equals a fresh one exactly when the published skills'
  tags are unchanged since the entry was filled (`CachedCardIsFreshUpToTags`).
- An org id ending in a slash is served where discovery never asks (`TrailingSlashMissesCard`).
  Discovery from the advertised URL requests the served card path exactly when the org id does
  not end in a slash and the URL has no well-known mark of its own (`DiscoveryFindsServedCard`).
- The empty org of a card without a base URL is published as a tenant and not adopted
  (`EmptyTenantIsLost`); the tenant is adopted exactly when the URL is not empty or there is no
  org (`PublishedCardRoundTrips`).
- A successful stream with text that the sanitizer raises on leaves neither update nor audit
  event (`SanitizerCanSilence`), and nothing else does (`AuditedOnce`).
- With no permits the fan-out is stuck exactly when there is a claim (`StuckOnlyWithoutPermits`).
- A cancelled worker leaves no error record (`CancelledEscapes`), and only a cancelled one does
  not (`RunParallelVerification`).
- A review action outside the three is met with the same question for ever
  (`OtherAsksForEver`); the loop ends exactly when every decision it consults is one of the
  three (`LoopEndsIffRuled`).
- An initial swarm agent gets its ticket back in the table's own bug row
  (`BugTicketReturnsToCoder`); exactly when it does is `TicketComesBack`.
- The keyword store counts ids from its current size, so a delete makes it reuse ids
  (`IdReusedAfterDelete`); new ids are unused exactly when the store is as large as it ever was
  (`NewIdsFreshIffAtPeak`).

Three tests in the code turn out to decide nothing or less than they seem to: the client's suffix
test before discovery (`DiscoveryUrlOneTest`), the supervisor's zero-score fallback
(`RoutedIsBest`), and its loop breaker, which does not outlive the run (`SecondRunRepeatsLeaf`).
A peer's JSON-RPC error text goes into a node's error note as it is; exactly when is
`PeerErrorReachesNote`, and that nothing of the artifacts does is `FailureHidesArtifacts`.

## Model

| member | source | states |
|---|---|---|
| ClientTheorems.CredentialsStayHome | prismal/a2a/client.py:205-283 | in every run, a POST with an Authorization header goes to a URL that passes the policy and shares the discovery URL's origin; no token is fetched or granted otherwise; exactly when a header is sent |
| ClientTheorems.GuardedPostsPass | prismal/a2a/client.py:211-242 | with an allowlist or strict mode, every RPC POST of every run passes the policy and its host matches a listed pattern |
| ClientGuards.BearerGoesWhereAllowed | prismal/a2a/client.py:205-254 | in terms of the parsed URL: every bearer value of every run goes over https, or http to an opted-in loopback host, to no local or private host without opt-in, and to the card URL's scheme and host |
| ClientGuards.PooledBearerIsPublic | prismal/a2a/client.py:534-553 | over pool runs a bearer value goes over https to a host neither local nor private that the manager's list admits |
| ClientGuards.GuardRefusesExactly | prismal/a2a/client.py:211-242 | exactly when each of the two refusals happens, by the clauses of the check on the parsed URL |
| ClientGuards.PublicHomeIsServed | prismal/a2a/client.py:211-254 | without a list a public https URL of the card's origin is not refused, and a configured bearer token is sent to it |
| ClientGuards.ClientCredentialsExactly | prismal/a2a/client.py:298-318 | which token is sent, what is asked for it, and what each reply to that leads to |
| ClientGuards.InteractiveExactly | prismal/a2a/client.py:256-283 | without configured auth: when a flow is selected, kept and granted a token, and what is sent |
| ClientGuards.NoHeaderExactly | prismal/a2a/client.py:244-254 | when no header is sent and nothing is asked |
| ClientGuards.AdmittedExactly | prismal/a2a/client.py:71-75 | a URL is admitted to the pool by its host alone |
| ClientGuards.PooledClientIsDefault | prismal/a2a/client.py:540-551 | a pooled client has the manager's auth and list, no opt-ins, no pin, no tenant and two tries |
| ClientTheorems.PostsSpeakNegotiatedVersion | prismal/a2a/client.py:285-382 | every POST of a run has the method family, version header and effective tenant of the one negotiated version, and goes to the adopted card's URL; ListTasks only to a 1.0 peer |
| ClientTheorems.WrittenOnce | prismal/a2a/client.py:163-184 | card, version, 1.0 card, tenant, resolved flow and token are written at most once; nothing cached is asked for again; log and metrics only grow |
| ClientTheorems.DiscoverySpendsAttempts | prismal/a2a/client.py:186-203 | between one and max(1, max_retries) GETs to the well-known URL, retried exactly on HTTP failures; a failure leaves every card field unset |
| ClientTheorems.ListRefusalIo | prismal/a2a/client.py:420-433 | exactly when refusing to list tasks costs no I/O, and that a peer that is not 1.0 never receives the POST |
| ClientTheorems.ListRefusalCanCostIo | prismal/a2a/client.py:420-433 | the documented "no I/O" fails for an undiscovered 0.3 peer: one discovery GET is sent before the refusal |
| ClientTheorems.MetricsAreFaithful | prismal/a2a/client.py:384-390 | over every run, one metrics record for each streamed 1.0 call and each listing, in order and with its true outcome, save listings answered with JSON that is no object |
| ClientTheorems.SendDelivers | prismal/a2a/client.py:320-418 | a drained task call sends one POST and delivers the artifacts up to and including the first terminal event; exactly when it fails, and what the failure quotes |
| ClientCalls.TaskReturnsWhatIsSaid | prismal/a2a/client.py:320-418 | a task call returns exactly the artifacts the stream's events say, by their raw JSON, and fails exactly as it ends |
| ClientCalls.LegacyPeerIsHeard | prismal/a2a/client.py:461-483 | artifacts sent as results, inside results or bare, and then one of three statuses, are returned in full |
| ClientCalls.UnpreparedCallsFail | prismal/a2a/client.py:327-338 | card, guard and credentials come in this order, and the first to fail is what the call fails with |
| ClientCalls.ListingAsksKnownPeer | prismal/a2a/client.py:424-442 | which listings are asked for and which end before that |
| ClientCalls.SendPosts | prismal/a2a/client.py:332-339 | the one POST of a task call: this message and skill, method, header and tenant of the settled version |
| ClientCalls.CancelPosts | prismal/a2a/client.py:485-506 | the one POST of a cancellation, and that its reply changes nothing |
| ClientCalls.ListingExactly | prismal/a2a/client.py:434-459 | the one POST of a listing, and result, failure and metrics record for every reply |
| ClientRuns.RunKeeps | prismal/a2a/client.py:117-132 | the invariant tying the client's eight fields and everything ever sent together survives every run of operations |
| ClientTheorems.ListAnswerGoesUncounted | prismal/a2a/client.py:445-459 | a listing answered with a JSON list is POSTed, fails with an uncaught error and is not counted |
| A2AClients.A2AClient.constructor | prismal/a2a/client.py:81-132 | a new client knows at most the card it was given, whose URL is then the discovery URL, and the HTTP client it was given |
| A2AClients.A2AClient.Aclose | prismal/a2a/client.py:142-146 | closing drops the HTTP client and keeps everything cached |
| A2AClients.A2AClient.AdoptCard | prismal/a2a/client.py:163-178 | the state after adopting a raw card, in either shape, and the errors that leave it unchanged |
| A2AClients.A2AClient.Discover | prismal/a2a/client.py:186-203 | the retry loop refines the attempt-by-attempt specification |
| A2AClients.A2AClient.Settle | prismal/a2a/client.py:182-184 | the version of a card that was handed in is settled once |
| A2AClients.A2AClient.EnsureCard | prismal/a2a/client.py:180-184 | discovery followed by settling |
| A2AClients.A2AClient.CardOAuthFlow | prismal/a2a/client.py:256-283 | the cached interactive flow, chosen only for a 1.0 card with requirements and no configured auth |
| A2AClients.A2AClient.FetchOAuthToken | prismal/a2a/client.py:298-318 | the cached client-credentials token and each way of failing to get one |
| A2AClients.A2AClient.AuthHeaders | prismal/a2a/client.py:244-254 | the order in which bearer, client-credentials and card flow are tried |
| A2AClients.A2AClient.Authorize | prismal/a2a/client.py:211-254 | the URL is guarded before any credential is gathered |
| A2AClients.A2AClient.SendTask | prismal/a2a/client.py:320-352 | the whole streamed call, in either version, against its specification |
| A2AClients.A2AClient.ConsumeLegacy | prismal/a2a/client.py:341-352 | the legacy event loop delivers exactly the drain of the decoded events |
| A2AClients.A2AClient.ConsumeV1 | prismal/a2a/client.py:374-390 | the 1.0 event loop, with its inner artifact loop, delivers exactly the drain of the decoded events |
| A2AClients.A2AClient.Cancel | prismal/a2a/client.py:485-506 | one best-effort POST in the negotiated version, whatever comes back |
| A2AClients.A2AClient.ListTasks | prismal/a2a/client.py:420-459 | the three version refusals, the POST, the reading of its reply and the metrics record |
| Streams.DrainDelivers | prismal/a2a/client.py:374-418 | a drained stream is the artifacts up to the first stop, with how it ended |
| Streams.DrainIgnoresTail | prismal/a2a/client.py:378-383 | nothing after the stopping event matters |
| Streams.DrainIgnoresSilent | prismal/a2a/client.py:392-418 | dropping events that say nothing changes nothing |
| Streams.DrainIgnoresGarbage | prismal/a2a/client.py:461-468 | dropping events that are not JSON changes nothing, in either version |
| Streams.LegacyTerminalCarriesNothing | prismal/a2a/client.py:473-483 | no legacy event both delivers an artifact and ends the stream |
| Streams.RedactionKeepsEnding | prismal/a2a/client.py:374-418 | how a stream ends does not depend on the artifacts in it |
| StreamMeaning.LegacyEventMeaning | prismal/a2a/client.py:461-483 | what a legacy event delivers and whether it ends the stream, by its JSON fields; three literal statuses end it |
| StreamMeaning.V1EventMeaning | prismal/a2a/client.py:392-418 | the same for the four kinds of 1.0 event and its four ending states |
| StreamMeaning.StreamDelivers | prismal/a2a/client.py:374-418 | a stream whose events say these artifacts delivers them in order and ends as they say |
| StreamMeaning.PartRoundTrips | prismal/a2a/convert.py:61-92 | exactly which 1.0 parts survive conversion to the internal form and back |
| Negotiation.NormalizesToOne | prismal/a2a/negotiation.py:28-39 | exactly which version strings mean 1.0 |
| Negotiation.NormalizesToLegacy | prismal/a2a/negotiation.py:28-39 | exactly which version strings mean 0.3 |
| Negotiation.SelectionIsAdvertised | prismal/a2a/negotiation.py:115-125 | the chosen version is advertised unless none is; a preferred one is honoured exactly when it can be; 1.0 is passed over only on request |
| Negotiation.FirstUsableIsFirst | prismal/a2a/negotiation.py:128-139 | the endpoint chosen is the first of its version with a URL, and none is chosen only when there is none |
| Negotiation.SelectedUrlUsable | prismal/a2a/negotiation.py:87-139 | exactly when the selected URL is non-empty, and where its tenant comes from |
| Negotiation.StripExactly | prismal/a2a/negotiation.py:32 | stripping takes the white space off both ends and nothing else |
| CardReading.OffersExactly | prismal/a2a/negotiation.py:87-125 | a raw card offers a version exactly when a JSON-RPC interface of its list, or its top level, names it |
| CardReading.OtherBindingsOfferNothing | prismal/a2a/negotiation.py:95-98 | interfaces of other bindings offer no version |
| CardReading.AdoptsFirstUsable | prismal/a2a/client.py:163-178 | URL and tenant adopted are those of the first JSON-RPC interface of the settled version with a URL; none when there is none |
| CardReading.AdoptsVersion | prismal/a2a/client.py:153-178 | which version is settled on, and exactly when adoption fails, by the raw card |
| CardReading.NoObjectNoCard | prismal/a2a/client.py:163-178 | nothing is adopted from JSON that is no object |
| CardReading.HandedCardVersion | prismal/a2a/client.py:180-184 | the version of a handed-in card is read off its dump, once |
| Policy.PassedHostIsAllowed | prismal/a2a/oauth.py:97-131 | under an allowlist or strict mode a passing endpoint's host is allowed, so strict with an empty list passes none |
| Policy.PassesExactly | prismal/a2a/oauth.py:97-131 | the endpoint check as one condition on the parsed URL |
| Policy.SameOriginExactly | prismal/a2a/oauth.py:134-138 | when two URLs share an origin: scheme, host and port, an unnamed port being the scheme's own |
| PoolSpec.PooledPostsAdmitted | prismal/a2a/client.py:534-553 | the pool is injective and admits every URL in it; every RPC POST of every client ever handed out passed the manager's policy |
| PoolSpec.PooledCredentialsStayHome | prismal/a2a/client.py:205-242 | over every pool run, a POST with a bearer value by any client passes the pool's policy and has the origin of the URL the client was asked for |
| PoolSpec.SameClientUntilClosed | prismal/a2a/client.py:540-553 | until the pool is closed a URL keeps its first client |
| PoolSpec.ClosingStartsOver | prismal/a2a/client.py:555-559 | closing closes every pooled client, empties the pool and loses nothing else; the next lookup makes a new client |
| ConnectionManagers.A2AConnectionManager.constructor | prismal/a2a/client.py:512-532 | a new manager has handed out nothing |
| ConnectionManagers.A2AConnectionManager.GetClient | prismal/a2a/client.py:534-553 | lookup on the object heap equals the pool's transition; denied exactly when the host is not admitted |
| ConnectionManagers.A2AConnectionManager.CloseEach | prismal/a2a/client.py:557-558 | exactly the pooled clients are closed, the others keep their connection |
| ConnectionManagers.A2AConnectionManager.Aclose | prismal/a2a/client.py:555-559 | closing on the object heap equals the pool's transition |
| ConnectionManagers.A2AConnectionManager.SendThrough | prismal/a2a/client.py:636-638 | a task call on a client the manager handed out takes the pool through its own use move |
| NodeSpec.AuditedOnce | prismal/a2a/client.py:622-668 | one audit event per call agreeing with the update, and exactly when there is neither |
| NodeSpec.AnswerIsSanitized | prismal/a2a/client.py:654-667 | the answer is the sanitizer's reading of all the texts, empty without any; events carry the skill |
| NodeSpec.JoinLinesConcat | prismal/a2a/client.py:655 | texts are joined in order, one newline between any two |
| NodeSpec.LastTextIsLast | prismal/a2a/client.py:614-620 | the prompt is the text of the last message that has one |
| NodeSpec.UserMessageCarriesPrompt | prismal/a2a/client.py:628-632 | the message sent is the user's, its one part the prompt as text |
| NodeSpec.SanitizerCanSilence | prismal/a2a/client.py:654-656 | a stream with text whose sanitizer raises leaves neither event nor update |
| NodeSpec.FailureHidesArtifacts | prismal/a2a/client.py:643-652 | taking every artifact out of a failing stream changes neither the note's text nor the rest of the update nor the audit trail |
| NodeSpec.NoteTellsFirstStop | prismal/a2a/client.py:643-652 | the text of the note as a function of the stream's first stop alone |
| NodeSpec.PeerErrorReachesNote | prismal/a2a/client.py:392-400 | exactly when a call fails with a JSON-RPC error of the peer's, and how the note quotes it |
| NodeSpec.TextsComeFromParts | prismal/a2a/client.py:638-642 | a text is in the answer exactly when some artifact carries it as a non-empty text part |
| AgentNodes.A2AAgentNode.constructor | prismal/a2a/client.py:572-590 | a new node has audited nothing, and its own client would have the default configuration |
| AgentNodes.A2AAgentNode.ResolveClient | prismal/a2a/client.py:592-598 | an injected client wins, then the manager's, then one of the node's own |
| AgentNodes.A2AAgentNode.Collect | prismal/a2a/client.py:636-642 | the accumulation loops gather every non-empty text in stream order and count the artifacts |
| AgentNodes.A2AAgentNode.Delegate | prismal/a2a/client.py:634-643 | artifacts, failure and the whole state of the client or pool after resolving and draining |
| AgentNodes.A2AAgentNode.Conclude | prismal/a2a/client.py:643-668 | update and audit event of a drained stream |
| AgentNodes.A2AAgentNode.Ainvoke | prismal/a2a/client.py:622-668 | update, audit trail and the state of client, pool and node afterwards, ready for the next turn |
| Urls.RouteMatchesCard | prismal/a2a/card.py:80-101 | stripped base plus RPC path is the URL the card advertises |
| Urls.DiscoveryUrlOneTest | prismal/a2a/client.py:192-194 | the client's suffix test never decides anything |
| Urls.DiscoveryUrlIdempotent | prismal/a2a/client.py:192-194 | normalising a discovery URL twice changes nothing |
| Urls.DiscoveryFindsServedCard | prismal/a2a/card.py:86-101 | exactly when discovery from the advertised URL requests the served card path |
| Urls.TrailingSlashMissesCard | prismal/a2a/card.py:86-101 | an org id ending in a slash is served where discovery never asks |
| CardSpec.CachedCardIsFreshUpToTags | prismal/a2a/card.py:117-133 | over every sequence of builds and clears the returned card is fresh up to tags, and fresh throughout exactly when the tags agree |
| CardSpec.StaleTagsServed | prismal/a2a/card.py:269-277 | a retagged registry is served a stale card |
| CardSpec.SameInstanceUntilCleared | prismal/a2a/card.py:269-293 | builds with one key give the same object exactly when the cache was not cleared in between |
| CardSpec.SameKeyCards | prismal/a2a/card.py:117-157 | equal keys mean equal cards up to tags |
| CardSpec.SharesEntryExactly | prismal/a2a/card.py:117-133 | exactly when two builds share a cache entry |
| CardSpec.FreshCardSays | prismal/a2a/card.py:104-212 | a fresh card's version, DID, tenant, modes and skills, field by field |
| CardSpec.SchemesInOrder | prismal/a2a/card.py:172-178 | schemes come in the order in which they are first named |
| CardSpec.VersionsPublishTheSame | prismal/a2a/card.py:165-212 | both versions publish the same URL, package version, skills and DID; the 1.0 card declares and requires exactly the configured schemes that are known |
| CardCaches.CardCache.ClearAgentCardCache | prismal/a2a/card.py:75-77 | clearing empties the table |
| CardCaches.CardCache.BuildSkills | prismal/a2a/card.py:136-157 | the loop yields the skills of the allowlist, or of the sorted registry, that the registry knows |
| CardCaches.CardCache.CollectSchemes | prismal/a2a/card.py:172-178 | known schemes, each once, in the order first named |
| CardCaches.CardCache.BuildFresh | prismal/a2a/card.py:279-291 | a card built from scratch, in either version |
| CardCaches.CardCache.BuildAgentCard | prismal/a2a/card.py:251-293 | hit or miss, the table afterwards and the object returned |
| CardToClient.WireAdvertises | prismal/a2a/card.py:180-212 | negotiation reads exactly one endpoint off each published card: its own URL, version and tenant |
| CardToClient.WireCarriesCard | prismal/a2a/types.py:59-73 | a published card carries its name, package version, skills, DID and, for 0.3, URL |
| CardToClient.WireCarriesV1 | prismal/a2a/v1/types.py:359-376 | a 1.0 card carries every field its wire model requires, and its security requirements |
| CardToClient.SkillRoundTrips | prismal/a2a/types.py:48-56 | a published skill reads back as itself |
| CardToClient.SchemesDeclared | prismal/a2a/card.py:54-62 | what each known security scheme declares |
| CardToClient.RequirementsNameSchemes | prismal/a2a/card.py:207-210 | each requirement names one scheme alone |
| CardToClient.PublishedCardRoundTrips | prismal/a2a/client.py:163-178 | a client that discovers our card adopts its version, URL and tenant, refusing exactly a pin to the other version |
| CardToClient.PublishedSchemesGuard | prismal/a2a/client.py:205-209 | a client without auth that adopts our 1.0 card counts as sending credentials exactly when we published a scheme |
| CardToClient.EmptyTenantIsLost | prismal/a2a/card.py:183-190 | the empty org of a card without a base URL is published and not adopted |
| Parallel.ScheduleIsBounded | examples/patterns/09_parallel_dispatcher.py:166-176 | under every schedule permits plus running workers equal the cap; complete exactly after two moves a claim |
| Parallel.StuckOnlyWithoutPermits | examples/patterns/09_parallel_dispatcher.py:166-170 | a reachable unfinished state is stuck exactly when the cap is zero and there is work |
| Parallel.OutcomeIsRecorded | examples/patterns/09_parallel_dispatcher.py:173-176 | a worker's slot holds the outcome of its own finishing move |
| Parallel.ScheduleIndependence | examples/patterns/09_parallel_dispatcher.py:173-192 | schedules and caps that end each worker alike gather the same list |
| Parallel.FanIn | examples/patterns/09_parallel_dispatcher.py:178-192 | one slot a claim: the value, the error record with that claim's id, or an escaped cancellation |
| Parallel.RunParallelVerification | examples/patterns/09_parallel_dispatcher.py:149-192 | under any scheduler the call ends after two moves a claim, with each claim's outcome in its own slot |
| Parallel.CancelledEscapes | examples/patterns/09_parallel_dispatcher.py:180-190 | a cancelled worker leaves no error record |
| Parallel.ParseReply | examples/patterns/09_parallel_dispatcher.py:121-135 | the line loop keeps the last label line and the last justification line |
| Parallel.LastMarkedIsLast | examples/patterns/09_parallel_dispatcher.py:125-135 | the deciding line is the last one with its mark |
| Parallel.VerdictReadsLastLines | examples/patterns/09_parallel_dispatcher.py:121-134 | the label from what follows the mark on the last label line, the justification likewise, and the defaults without any |
| SettingsScan.ScanLines | scripts/gen_settings_docs.py:85-101 | the loop's state after a gap |
| SettingsScan.ScanGapMeaning | scripts/gen_settings_docs.py:85-101 | that state read without carrying any: last title, comment lines after the last resetting line, box parity |
| SettingsScan.ScanField | scripts/gen_settings_docs.py:83-103 | one field's section and comment, from what its gap says |
| SettingsScan.SourceSectionsAndComments | scripts/gen_settings_docs.py:73-104 | for every field's last declaration, the section is the last title of the last gap so far that has one, or General, and the comment is its own gap's trailing comment; nothing else has an entry |
| SettingsScan.GapsAreInOrder | scripts/gen_settings_docs.py:80-104 | scanned gaps come in order and do not overlap |
| SettingsScan.GapsAreClean | scripts/gen_settings_docs.py:81-87 | a scanned gap holds no line of any statement |
| SettingsScan.LinesInExactly | scripts/gen_settings_docs.py:88 | a line is scanned for a gap exactly when it lies in it, in order |
| SettingsScan.FieldOfStatement | scripts/gen_settings_docs.py:80-104 | a field's gap runs from the end of the statement before, or the class line, to its own first line |
| SettingsScan.HeadingAboveIsSection | scripts/gen_settings_docs.py:88-102 | a heading directly above a declaration is its section |
| SettingsScan.CommentAboveIsLast | scripts/gen_settings_docs.py:98-103 | a comment directly above a declaration, outside a box, closes its comment |
| SettingsScan.JoinWordsConcat | scripts/gen_settings_docs.py:103 | comment lines are joined in order, one space between what is not empty |
| SettingsGroups.Grouped | scripts/gen_settings_docs.py:186-192 | the loop splits its input into non-empty runs of one section, neighbours differing, that concatenate to the input |
| SettingsGroups.RunSplitUnique | scripts/gen_settings_docs.py:186-192 | there is only one such split |
| SettingsGroups.PrintedCountsAddUp | scripts/gen_settings_docs.py:239-266 | the per-section counts printed add up to the two declared totals |
| SettingsSync.Sync | scripts/gen_settings_docs.py:294-312 | which pages are stale, the disk afterwards and the exit code, in both modes |
| SettingsSync.StalePathsDiffer | scripts/gen_settings_docs.py:299-303 | the stale list names exactly the files that differ, and is empty exactly when all are up to date |
| SettingsSync.StaleExactly | scripts/gen_settings_docs.py:301-303 | a page is stale exactly when its file differs, or is missing and the page is not empty |
| SettingsSync.WrittenIsUpToDate | scripts/gen_settings_docs.py:300-305 | after writing every page is up to date |
| SettingsSync.WrittenOnlyStale | scripts/gen_settings_docs.py:302-305 | no file is touched but those that differed |
| Hitl.RunHitlPipeline | examples/subgraphs/09_hitl_approval.py:293-388 | the loop equals a pure function of the decisions |
| Hitl.ReviewFollowsDecisions | examples/subgraphs/09_hitl_approval.py:293-388 | at most n consultations, shown in order; the first approval or rejection decides, n change requests give up, bypass or low risk asks nobody |
| Hitl.RiskDecidesWhoIsAsked | examples/subgraphs/09_hitl_approval.py:152-163 | HIGH and MEDIUM are asked about and deployed only after an approval; any other level, or bypass, deploys the original unasked |
| Hitl.ShownArtifact | examples/subgraphs/09_hitl_approval.py:136-201 | what the k-th interrupt shows: identity and risk of the original, each field as the latest change request left it |
| Hitl.DeployedOnceIfApproved | examples/subgraphs/09_hitl_approval.py:327-367 | the finalizer runs once exactly on approval, on the proposal whose artifact was shown last |
| Hitl.ScriptDecides | examples/subgraphs/09_hitl_approval.py:268-283 | under a script the verdict is read off its first entry that is no change request |
| Hitl.LoopEndsIffRuled | examples/subgraphs/09_hitl_approval.py:320-388 | the loop ends exactly when every consulted decision is one of the three actions, and then with the review's verdict |
| Hitl.OtherAsksForEver | examples/subgraphs/09_hitl_approval.py:320-388 | an action outside the three leaves the loop at its first question after any number of turns |
| Swarm.DecideHandoff | examples/patterns/08_swarm.py:138-181 | the first target of the intent that is allow-listed and not visited |
| Swarm.ProcessTicket | examples/patterns/08_swarm.py:184-241 | the loop records exactly the route read off the table, and no handoff is rejected |
| Swarm.NextStop | examples/patterns/08_swarm.py:151-181 | after k hops along the route the next open target is its next stop |
| Swarm.HandoffContract | prismal/agents/patterns/swarm.py:92-163 | a handoff is refused exactly for itself or a target not allow-listed, and otherwise adds one entry and sets the next agent |
| Swarm.UnknownIntentStays | examples/patterns/08_swarm.py:165 | an intent without a row hands nothing off |
| Swarm.HandoffsAreLegal | prismal/agents/patterns/swarm.py:92-163 | no agent is the target of two handoffs; every one goes from the holder to another, allow-listed target of the intent |
| Swarm.HopsAreBounded | examples/patterns/08_swarm.py:206-241 | hops exceed neither the cap nor the number of distinct allow-listed targets |
| Swarm.SequenceIsExhausted | examples/patterns/08_swarm.py:168-181 | below the cap, exactly which agents get the ticket |
| Swarm.TicketComesBack | examples/patterns/08_swarm.py:151-153 | exactly when the initial agent gets the ticket back |
| Swarm.BugTicketReturnsToCoder | examples/patterns/08_swarm.py:156-163 | the table's bug row, started at its first agent, returns to it |
| KeywordStore.KeywordVectorStore.constructor | examples/memory_management.py:54-56 | a new store is the replay of no calls |
| KeywordStore.KeywordVectorStore.AddDocuments | examples/memory_management.py:63-67 | documents are appended, with ids counted from the size before |
| KeywordStore.KeywordVectorStore.SimilaritySearch | examples/memory_management.py:69-81 | the scoring loop, sort and slice compute the search function |
| KeywordStore.KeywordVectorStore.DeleteBySource | examples/memory_management.py:83-85 | exactly the documents of that source go, the rest keep their order |
| KeywordStore.KeywordVectorStore.DeleteCollection | examples/memory_management.py:87-89 | everything goes |
| KeywordStore.StoreHoldsSurvivors | examples/memory_management.py:63-89 | after any run of calls the store is the insertion history minus what was deleted later |
| KeywordStore.SearchReturnsTheBest | examples/memory_management.py:69-81 | min(k, positives) hits, or all but the last -k for a negative bound; descending, ties in stored order, none left out ahead of one returned |
| KeywordStore.ScoreCountsSharedTokens | examples/memory_management.py:71-77 | a document's score depends on how many of the query's tokens it has, among how many |
| KeywordStore.RankingIsUnique | examples/memory_management.py:80-81 | the ranking is determined by the hits in it |
| KeywordStore.NoTokensNoHits | examples/memory_management.py:71-73 | a query without tokens finds nothing |
| KeywordStore.NewIdsFreshIffAtPeak | examples/memory_management.py:65-67 | new ids are unused exactly when the store is as large as it ever was |
| KeywordStore.IdReusedAfterDelete | examples/memory_management.py:65-67 | add, delete, add hands out one id twice |
| Supervisor.SimulateDomainSupervisor | examples/subgraphs/10_analysis_orchestrator.py:382-407 | the nested counting loops and the choice compute the routing function |
| Supervisor.ScoreCountsHits | examples/subgraphs/10_analysis_orchestrator.py:395-404 | a leaf's score is the number of keyword entries of its rules that occur in the text |
| Supervisor.RoutedIsBest | examples/subgraphs/10_analysis_orchestrator.py:394-407 | maximal keyword score, earliest on ties, the first leaf at zero without help from the fallback |
| Supervisor.RunKeepsStart | examples/subgraphs/10_analysis_orchestrator.py:638-718 | every point of a run: at most three nodes and one leaf, earlier messages untouched, one message a leaf run, counter raised by supervisor visits |
| Supervisor.RequestIsLastHuman | examples/subgraphs/10_analysis_orchestrator.py:697-699 | the request is the content of the last human message, or empty |
| Supervisor.RunAddsBestLeafsAnswer | examples/subgraphs/10_analysis_orchestrator.py:674-718 | what a run adds: the answer of the leaf with most keyword entries in the request, unless a leaf spoke last; and the counter |
| Supervisor.RunEnds | prismal/agents/subgraphs/analysis_orchestrator/builder.py:67-78 | every run ends, with no next agent, having called a leaf unless one had answered |
| Supervisor.SecondRunRepeatsLeaf | examples/subgraphs/10_analysis_orchestrator.py:680-698 | a run over a finished state calls the same leaf again |

## Left out

- Two coroutines using one client at once: each client operation runs to completion.
- The HTTP an interactive OAuth flow does, its vault and refresh logic: a grant is one log entry with an arbitrary answer.
- A2AClient.constructor: the error for a protocol name other than the three; the protocol is a value of an enumeration.
- HTTP client construction, timeouts, request and task ids, logging, tracing and the audit hash chain.
- Client id and secret of the token request.
- Who the text of an error names as the agent, and the wording of errors that quote nothing of the peer's: arbitrary functions of the failure.
- Exceptions other than the modelled kinds: URLs whose port does not parse, a `status` that cannot be hashed, consumers that close a stream early.
- Inbound negotiation, the A2A server, task store and provider, which share none of the client's state.
- Mutation of a shared card object by a caller: cards are values, with a number for their identity.
- SourceSectionsAndComments: a line comes classified, with both readings of its text, so the two regular expressions and title cleaning are not modelled.
- Rendering beyond the section counts: wrapping, escaping, anchors, defaults and aliases; `render_env`'s test for the title "Maintenance", which no group bears.
- A negative permit count, which the semaphore refuses at once.
- SimulateDomainSupervisor: a rule for a name outside the score table would raise; the code's table has none, so this is a precondition.
- RunHitlPipeline: the three actions are a precondition, because on any other one the loop does not end; LoopEndsIffRuled states exactly that.
- RunParallelVerification: a cap of zero with claims to check is excluded, because nothing then starts; StuckOnlyWithoutPermits states exactly that.
- A reviewer who answers the same interrupt differently when asked again: a decision is a function of the interrupt, whose iteration number is part of it.
- Keyword-based intent classification and handoff reason texts: the intent and the reason are parameters.
- Timestamps and context snapshots of handoff entries.
- Floating point: a keyword score is a natural number of ten-thousandths given by an arbitrary function of overlap and query size.
- Message ids and merging in the graph library: a node's messages are appended.
- The other orchestrators and the fused-scoring examples, which repeat patterns proved here.
