/** What each call of the client POSTs, and what it makes of the answer. */
module ClientCalls {
  import opened Wrappers
  import opened Json
  import opened Negotiation
  import opened Streams
  import opened StreamMeaning
  import opened ClientSpec
  import opened ClientTheorems

  /** The tenant of a 1.0 request: the client's own, else the card's, else the request's. */
  predicate TenantOf(w: World, st: State, own: Option<string>, tenant: Option<string>) {
    tenant == if w.cfg.tenant.Some? then w.cfg.tenant else if st.cardTenant.Some? then st.cardTenant else own
  }

  /**
   A call is prepared by a card, its guard and its credentials, in this order; the first to fail is
   what every call fails with, and no POST is then sent.
   */
  lemma UnpreparedCallsFail(w: World, st: State, message: Json, skill: Option<string>, taskId: string)
    ensures var (c, p) := (EnsureCard(w, st), Prepare(w, st));
            && (c.out.Err? ==> p.st == c.st && p.out == Err(c.out.error))
            && (c.out.Ok? ==> p == Authorize(w, c.st, c.out.value))
            && (p.out.Err? ==>
                 && SendTask(w, st, message, skill) == Sent(p.st, [], Some(p.out.error))
                 && Cancel(w, st, taskId) == Step(p.st, Err(p.out.error)))
  {
  }

  /**
   A listing of a client not pinned to 0.3: a known card is settled and an unknown one discovered;
   unless that fails or leaves another version than 1.0, the listing is asked for.
   */
  lemma ListingAsksKnownPeer(w: World, st: State, query: ListQuery)
    requires w.cfg.protocol != Pinned(V03)
    ensures var (c, l) := (EnsureCard(w, st), ListAll(w, st, query));
            if c.out.Err? then l.st == c.st && l.out == Err(c.out.error)
            else if c.st.version != Some(V10) then l == Step(c.st, Err(VersionMismatch))
            else l == ListFrom(w, c.st, c.out.value, query)
  {
  }

  /** A prepared task call POSTs one request: this message and skill, in the method of the settled version. */
  lemma SendPosts(w: World, st: State, message: Json, skill: Option<string>)
    requires Prepare(w, st).out.Ok?
    ensures var (p, out) := (Prepare(w, st).st, Prepare(w, st).out.value);
            var log := SendTask(w, st, message, skill).st.log;
            && log == p.log + [log[|p.log|]]
            && match log[|p.log|]
               case Rpc(url, call, SendParams(m, s), tenant, bearer, header, wantsStream) =>
                 && url == out.0 && bearer == out.1 && m == message && s == skill && wantsStream
                 && (if p.version == Some(V10)
                     then call == SendStreamingMessage && header == Some("1.0") && TenantOf(w, p, None, tenant)
                     else call == MessageSend && header == None && tenant == None)
               case _ => false
  {
  }

  /** A prepared cancellation POSTs one request with the task id, whatever comes back. */
  lemma CancelPosts(w: World, st: State, taskId: string)
    ensures var (p, c) := (Prepare(w, st), Cancel(w, st, taskId));
            if p.out.Err? then c == Step(p.st, Err(p.out.error))
            else
              && c.out == Ok(()) && c.st == p.st.(httpOpen := true, log := c.st.log)
              && |c.st.log| == |p.st.log| + 1 && c.st.log[..|p.st.log|] == p.st.log
              && match c.st.log[|p.st.log|]
                 case Rpc(url, call, CancelParams(id), tenant, bearer, header, wantsStream) =>
                   && url == p.out.value.0 && bearer == p.out.value.1 && id == taskId && !wantsStream
                   && (if p.st.version == Some(V10)
                       then call == CancelTask && header == Some("1.0") && TenantOf(w, p.st, None, tenant)
                       else call == TasksCancel && header == None && tenant == None)
                 case _ => false
  {
  }

  /**
   A listing of a known 1.0 peer POSTs one request with the query, and returns exactly the page its
   reply's result reads as; an error object, a missing or unreadable result, or no JSON at all is a
   failure that is counted, and JSON that is no object one that is not.
   */
  lemma ListingExactly(w: World, st: State, card: AgentCard, query: ListQuery)
    requires st.version == Some(V10) && Authorize(w, st, card).out.Ok?
    ensures var (p, l) := (Authorize(w, st, card), ListFrom(w, st, card, query));
            && |l.st.log| == |p.st.log| + 1 && l.st.log[..|p.st.log|] == p.st.log
            && (match l.st.log[|p.st.log|]
                case Rpc(url, call, ListParams(q), tenant, bearer, header, wantsStream) =>
                  && url == p.out.value.0 && bearer == p.out.value.1 && q == query && !wantsStream
                  && call == ListTasks && header == Some("1.0") && TenantOf(w, p.st, query.tenant, tenant)
                case _ => false)
            && (match w.replies(l.st.log)
                case Body(Obj(fields)) =>
                  if "error" in fields then
                    && l.out == Err(Unavailable(ListingRefused(fields["error"])))
                    && l.st.counts == p.st.counts + [Count(ListTasks, false)]
                  else if "result" in fields && w.cards.validateListing(fields["result"]).Some? then
                    && l.out == Ok(w.cards.validateListing(fields["result"]).value)
                    && l.st.counts == p.st.counts + [Count(ListTasks, true)]
                  else
                    && l.out == Err(Unavailable(ListingFailed(Body(Obj(fields)))))
                    && l.st.counts == p.st.counts + [Count(ListTasks, false)]
                case Body(json) => l.out == Err(Malformed(Body(json))) && l.st.counts == p.st.counts
                case reply =>
                  && l.out == Err(Unavailable(ListingFailed(reply)))
                  && l.st.counts == p.st.counts + [Count(ListTasks, false)])
  {
    assert Authorize(w, st, card).st.version == Some(V10);
  }

  lemma ParserDecodes(w: World, v1: bool, payloads: seq<Payload>)
    ensures ParseAll(Parser(w, v1), payloads) == ParseAll(Decoder(w.streams, v1), payloads)
  {
    forall i | 0 <= i < |payloads| ensures Parser(w, v1)(payloads[i]) == Decoder(w.streams, v1)(payloads[i]) {
    }
  }

  /**
   A task call to a peer whose stream says these artifacts, one batch an event, and then ends in
   this way, returns exactly the batches in order, and fails exactly when the ending is an error of
   the peer's or of the connection -- in either version, judged by the events' raw JSON.
   */
  lemma TaskReturnsWhatIsSaid(w: World, st: State, message: Json, skill: Option<string>,
                              said: seq<seq<Artifact>>, last: seq<Artifact>, ending: Ending)
    requires Prepare(w, st).out.Ok? && w.replies(SendTask(w, st, message, skill).st.log).Sse?
    requires var v1 := Prepare(w, st).st.version == Some(V10);
             var reply := w.replies(SendTask(w, st, message, skill).st.log);
             && |said| <= |reply.payloads|
             && (forall i :: 0 <= i < |said| ==> Says(w.streams, v1, reply.payloads[i], said[i], false))
             && StopsWith(w.streams, v1, reply.payloads, reply.broken, |said|, last, ending)
    ensures var sent := SendTask(w, st, message, skill);
            && sent.artifacts == Flat(said) + last
            && (match ending
                case Finished => sent.failure == None
                case Refused(error) => sent.failure == Some(Unavailable(StreamRefused(error)))
                case Broken(exc) => sent.failure == Some(Unavailable(StreamFailed(exc))))
            && (if Prepare(w, st).st.version == Some(V10)
                then sent.st.counts == Prepare(w, st).st.counts + [Count(SendStreamingMessage, ending == Finished)]
                else sent.st.counts == Prepare(w, st).st.counts)
  {
    var v1, reply := Prepare(w, st).st.version == Some(V10), w.replies(SendTask(w, st, message, skill).st.log);
    ParserDecodes(w, v1, reply.payloads);
    StreamDelivers(w.streams, v1, reply.payloads, reply.broken, said, last, ending);
  }

  /**
   A legacy peer that sends these artifacts -- each as a result, as a result's artifact, or bare --
   and then one of the three terminal statuses, is heard in full, whatever follows.
   */
  lemma LegacyPeerIsHeard(w: World, st: State, message: Json, skill: Option<string>, artifacts: seq<Artifact>)
    requires Prepare(w, st).out.Ok? && Prepare(w, st).st.version != Some(V10)
    requires w.replies(SendTask(w, st, message, skill).st.log).Sse?
    requires var payloads := w.replies(SendTask(w, st, message, skill).st.log).payloads;
             && |artifacts| < |payloads|
             && (forall i :: 0 <= i < |artifacts| ==> LegacyArtifact(w.streams, payloads[i], artifacts[i]))
             && LegacyEnds(payloads[|artifacts|])
    ensures var sent := SendTask(w, st, message, skill);
            sent.artifacts == artifacts && sent.failure == None
  {
    var payloads := w.replies(SendTask(w, st, message, skill).st.log).payloads;
    var said := seq(|artifacts|, i requires 0 <= i < |artifacts| => [artifacts[i]]);
    forall i | 0 <= i < |artifacts| ensures Says(w.streams, false, payloads[i], said[i], false) {
      ArtifactSays(w.streams, payloads[i], artifacts[i]);
    }
    EndSays(w.streams, payloads[|artifacts|]);
    TaskReturnsWhatIsSaid(w, st, message, skill, said, [], Finished);
    FlatSingles(artifacts);
  }

  lemma ArtifactSays(libs: StreamLibs, data: Payload, a: Artifact)
    requires LegacyArtifact(libs, data, a)
    ensures LegacySays(libs, data, [a], false)
  {
    LegacyDecoderSays(libs, data);
    assert ParseLegacy(libs, data).artifacts == [a];
  }

  lemma EndSays(libs: StreamLibs, data: Payload)
    requires LegacyEnds(data)
    ensures LegacySays(libs, data, [], true)
  {
    var body :| LegacyBody(data, body) && LegacyEnd(body);
    forall b | LegacyBody(data, b) ensures b == body {
      LegacyBodyUnique(data, b, body);
    }
  }

  lemma {:induction false} FlatSingles(artifacts: seq<Artifact>)
    ensures Flat(seq(|artifacts|, i requires 0 <= i < |artifacts| => [artifacts[i]])) == artifacts
  {
    var said := seq(|artifacts|, i requires 0 <= i < |artifacts| => [artifacts[i]]);
    if artifacts != [] {
      var rest := artifacts[1..];
      assert said[1..] == seq(|rest|, i requires 0 <= i < |rest| => [rest[i]]);
      FlatSingles(rest);
    }
  }
}
