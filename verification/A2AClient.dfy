/** The outbound client object, method by method, each proved against its specification function. */
module A2AClients {
  import opened Wrappers
  import opened Json
  import opened Negotiation
  import opened Streams
  import Urls
  import Spec = ClientSpec
  import Runs = ClientRuns

  class A2AClient {
    const w: Spec.World
    var card: Option<Spec.AgentCard>
    var version: Option<Version>
    var cardV1: Option<Spec.CardV1>
    var cardTenant: Option<string>
    var oauthFlow: Option<Spec.Flow>
    var oauthResolved: bool
    var oauthToken: Option<string>
    var httpOpen: bool
    // Everything sent so far, and every metrics record written.
    var log: seq<Spec.Request>
    var counts: seq<Spec.Count>

    function View(): Spec.State
      reads this
    {
      Spec.State(card, version, cardV1, cardTenant, oauthFlow, oauthResolved, oauthToken, httpOpen, log, counts)
    }

    constructor (w: Spec.World, card: Option<Spec.AgentCard>, http: bool)
      requires card.Some? ==> w.cfg.cardUrl == card.value.url
      ensures this.w == w && View() == Spec.Initial(card, http)
    {
      this.w := w;
      this.card := card;
      version, cardV1, cardTenant := None, None, None;
      oauthFlow, oauthResolved, oauthToken := None, false, None;
      httpOpen, log, counts := http, [], [];
    }

    method Issue(r: Spec.Request) returns (reply: Spec.Reply)
      modifies this
      ensures View() == Spec.Issue(old(View()), r)
      ensures reply == w.replies(log)
    {
      httpOpen := true;
      log := log + [r];
      reply := w.replies(log);
    }

    method Aclose()
      modifies this`httpOpen
      ensures !httpOpen
      ensures View() == Spec.Close(old(View()))
      ensures View() == Runs.Exec(w, old(View()), Runs.DoClose)
    {
      if httpOpen {
        httpOpen := false;
      }
    }

    method AdoptCard(raw: Json) returns (out: Result<Spec.AgentCard, Spec.Error>)
      modifies this
      ensures Spec.Step(View(), out) == Spec.Adopt(w, old(View()), raw)
    {
      var picked := Spec.PickVersion(w.cfg, raw);
      if picked.Err? {
        return Err(picked.error);
      }
      var adopted;
      if Spec.IsV1Shape(raw) {
        var v1 := w.cards.validateCardV1(raw);
        if v1.None? {
          return Err(Spec.Malformed(Spec.Body(raw)));
        }
        var (url, tenant) := SelectInterfaceUrl(raw, picked.value);
        adopted := w.cards.projectCard(v1.value).(url := url.GetOr(""), protocolVersion := VersionText(picked.value));
        cardV1 := v1;
        cardTenant := tenant;
      } else {
        var legacy := if raw.Obj? then w.cards.validateCard(raw) else None;
        if legacy.None? {
          return Err(Spec.Malformed(Spec.Body(raw)));
        }
        adopted := legacy.value;
      }
      version := Some(picked.value);
      card := Some(adopted);
      out := Ok(adopted);
    }

    method Discover() returns (out: Result<Spec.AgentCard, Spec.Error>)
      modifies this
      ensures Spec.Step(View(), out) == Spec.Discover(w, old(View()))
      ensures View() == Runs.Exec(w, old(View()), Runs.DoDiscover)
    {
      if card.Some? {
        return Ok(card.value);
      }
      var url := Urls.DiscoveryUrl(w.cfg.cardUrl);
      var n := Spec.Attempts(w.cfg);
      var last := "";
      for i := 0 to n
        invariant i < n ==> Spec.TryDiscover(w, View(), n - i) == Spec.Discover(w, old(View()))
        invariant i == n ==>
          Spec.Step(View(), Err(Spec.Unavailable(Spec.DiscoveryFailed(last)))) == Spec.Discover(w, old(View()))
      {
        var reply := Issue(Spec.Get(url));
        match reply {
          case HttpFailure(exc) => last := exc;
          case Body(raw) =>
            out := AdoptCard(raw);
            return;
          case _ =>
            return Err(Spec.Malformed(reply));
        }
      }
      out := Err(Spec.Unavailable(Spec.DiscoveryFailed(last)));
    }

    method Settle(c: Spec.AgentCard) returns (out: Result<Spec.AgentCard, Spec.Error>)
      modifies this
      ensures Spec.Step(View(), out) == Spec.Settle(w, old(View()), c)
    {
      if version.None? {
        var picked := Spec.PickVersion(w.cfg, w.cards.dumpCard(c));
        if picked.Err? {
          return Err(picked.error);
        }
        version := Some(picked.value);
      }
      out := Ok(c);
    }

    method EnsureCard() returns (out: Result<Spec.AgentCard, Spec.Error>)
      modifies this
      ensures Spec.Step(View(), out) == Spec.EnsureCard(w, old(View()))
    {
      out := Discover();
      if out.Ok? {
        out := Settle(out.value);
      }
    }

    method CardOAuthFlow() returns (out: Result<Option<Spec.Flow>, Spec.Error>)
      modifies this
      ensures Spec.Step(View(), out) == Spec.CardFlow(w, old(View()))
    {
      if oauthResolved {
        return Ok(oauthFlow);
      }
      if cardV1.None? || w.cfg.auth.scheme != Spec.NoAuth || cardV1.value.securityRequirements == [] {
        return Ok(None);
      }
      httpOpen := true;
      var chosen := w.cards.selectFlow(cardV1.value);
      if chosen.None? {
        return Err(Spec.OAuthFailed);
      }
      oauthFlow := chosen.value;
      oauthResolved := true;
      out := Ok(oauthFlow);
    }

    method FetchOAuthToken() returns (out: Result<string, Spec.Error>)
      modifies this
      ensures Spec.Step(View(), out) == Spec.FetchToken(w, old(View()))
    {
      if oauthToken.Some? {
        return Ok(oauthToken.value);
      }
      if w.cfg.auth.tokenUrl.GetOr("") == "" {
        return Err(Spec.Unavailable(Spec.NoTokenUrl));
      }
      var reply := Issue(Spec.TokenPost(w.cfg.auth.tokenUrl.value));
      if reply.Body? && !reply.json.Obj? {
        return Err(Spec.Malformed(reply));
      }
      if !reply.Body? || reply.json.Get("access_token").None? {
        return Err(Spec.Unavailable(Spec.TokenFailed(reply)));
      }
      oauthToken := Some(w.cards.show(reply.json.Get("access_token").value));
      out := Ok(oauthToken.value);
    }

    method AuthHeaders() returns (out: Result<Option<string>, Spec.Error>)
      modifies this
      ensures Spec.Step(View(), out) == Spec.AuthHeader(w, old(View()))
    {
      if w.cfg.auth.scheme == Spec.Bearer && w.cfg.auth.bearerToken.Some? {
        return Ok(w.cfg.auth.bearerToken);
      }
      if w.cfg.auth.scheme == Spec.ClientCredentials {
        var token := FetchOAuthToken();
        return if token.Ok? then Ok(Some(token.value)) else Err(token.error);
      }
      var flow := CardOAuthFlow();
      if flow.Err? {
        return Err(flow.error);
      }
      if flow.value.None? {
        return Ok(None);
      }
      log := log + [Spec.Grant(flow.value.value)];
      var secret := w.grants(log);
      out := if secret.Some? then Ok(secret) else Err(Spec.OAuthFailed);
    }

    method Authorize(c: Spec.AgentCard) returns (out: Result<(string, Option<string>), Spec.Error>)
      modifies this
      ensures Spec.Step(View(), out) == Spec.Authorize(w, old(View()), c)
    {
      var url := Spec.RpcUrl(w, View(), c);
      if url.Err? {
        return Err(url.error);
      }
      var auth := AuthHeaders();
      out := if auth.Ok? then Ok((url.value, auth.value)) else Err(auth.error);
    }

    /** Streams a task; the consumer reads to the end. */
    method SendTask(message: Json, skill: Option<string>)
      returns (artifacts: seq<Artifact>, failure: Option<Spec.Error>)
      modifies this
      ensures Spec.Sent(View(), artifacts, failure) == Spec.SendTask(w, old(View()), message, skill)
      ensures View() == Runs.Exec(w, old(View()), Runs.DoSend(message, skill))
    {
      var c := EnsureCard();
      if c.Err? {
        return [], Some(c.error);
      }
      var ready := Authorize(c.value);
      if ready.Err? {
        return [], Some(ready.error);
      }
      if version == Some(V10) {
        artifacts, failure := SendTaskV1(message, skill, ready.value);
      } else {
        artifacts, failure := SendTaskLegacy(message, skill, ready.value);
      }
    }

    method SendTaskLegacy(message: Json, skill: Option<string>, ready: (string, Option<string>))
      returns (artifacts: seq<Artifact>, failure: Option<Spec.Error>)
      requires version != Some(V10)
      modifies this
      ensures Spec.Sent(View(), artifacts, failure) == Spec.SendPrepared(w, old(View()), message, skill, ready)
    {
      var params := Spec.SendParams(message, skill);
      var reply := Issue(Spec.Envelope(w, View(), Spec.MessageSend, params, ready.0, ready.1));
      var ending;
      artifacts, ending := ConsumeLegacy(reply);
      failure := Spec.StreamFailure(ending);
    }

    method SendTaskV1(message: Json, skill: Option<string>, ready: (string, Option<string>))
      returns (artifacts: seq<Artifact>, failure: Option<Spec.Error>)
      requires version == Some(V10)
      modifies this
      ensures Spec.Sent(View(), artifacts, failure) == Spec.SendPrepared(w, old(View()), message, skill, ready)
    {
      var params := Spec.SendParams(message, skill);
      var reply := Issue(Spec.Envelope(w, View(), Spec.SendStreamingMessage, params, ready.0, ready.1));
      var ending;
      artifacts, ending := ConsumeV1(reply);
      counts := counts + [Spec.Count(Spec.SendStreamingMessage, ending == Finished)];
      failure := Spec.StreamFailure(ending);
    }

    /** The legacy event loop: at most one artifact an event, stopping at the first terminal one. */
    method ConsumeLegacy(reply: Spec.Reply) returns (artifacts: seq<Artifact>, ending: Ending)
      ensures Delivery(artifacts, ending) == Spec.Consume(w, false, reply)
    {
      artifacts := [];
      if !reply.Sse? {
        return [], if reply.HttpFailure? then Broken(reply.exc) else Broken(w.cards.noStream(reply));
      }
      ghost var events := ParseAll(Spec.Parser(w, false), reply.payloads);
      var i := 0;
      while i < |reply.payloads|
        invariant 0 <= i <= |reply.payloads|
        invariant Drain(events, reply.broken) == After(artifacts, Drain(events[i..], reply.broken))
      {
        var event := ParseLegacy(w.streams, reply.payloads[i]);
        DrainStep(artifacts, events, i, reply.broken);
        if event.RpcError? {
          return artifacts, Refused(event.error);
        }
        artifacts := artifacts + event.artifacts;
        if event.done {
          return artifacts, Finished;
        }
        i := i + 1;
      }
      ending := Closing(reply.broken);
    }

    /** The 1.0 event loop: every artifact of an event is yielded before its terminal mark is tested. */
    method ConsumeV1(reply: Spec.Reply) returns (artifacts: seq<Artifact>, ending: Ending)
      ensures Delivery(artifacts, ending) == Spec.Consume(w, true, reply)
    {
      artifacts := [];
      if !reply.Sse? {
        return [], if reply.HttpFailure? then Broken(reply.exc) else Broken(w.cards.noStream(reply));
      }
      ghost var events := ParseAll(Spec.Parser(w, true), reply.payloads);
      var i := 0;
      while i < |reply.payloads|
        invariant 0 <= i <= |reply.payloads|
        invariant Drain(events, reply.broken) == After(artifacts, Drain(events[i..], reply.broken))
      {
        var event := ParseV1(w.streams, reply.payloads[i]);
        DrainStep(artifacts, events, i, reply.broken);
        if event.RpcError? {
          return artifacts, Refused(event.error);
        }
        artifacts := YieldEach(artifacts, event.artifacts);
        if event.done {
          return artifacts, Finished;
        }
        i := i + 1;
      }
      ending := Closing(reply.broken);
    }

    static method YieldEach(yielded: seq<Artifact>, more: seq<Artifact>) returns (all: seq<Artifact>)
      ensures all == yielded + more
    {
      all := yielded;
      for k := 0 to |more|
        invariant all == yielded + more[..k]
      {
        all := all + [more[k]];
      }
    }

    method Cancel(taskId: string) returns (out: Result<(), Spec.Error>)
      modifies this
      ensures Spec.Step(View(), out) == Spec.Cancel(w, old(View()), taskId)
      ensures View() == Runs.Exec(w, old(View()), Runs.DoCancel(taskId))
    {
      var c := EnsureCard();
      if c.Err? {
        return Err(c.error);
      }
      var ready := Authorize(c.value);
      if ready.Err? {
        return Err(ready.error);
      }
      // Best effort: whatever comes back, including an HTTP failure, is dropped.
      var (url, bearer) := ready.value;
      var _ := Issue(Spec.Envelope(w, View(), Spec.CancelMethod(View()), Spec.CancelParams(taskId), url, bearer));
      out := Ok(());
    }

    method ListTasks(query: Spec.ListQuery) returns (out: Result<Spec.Listing, Spec.Error>)
      modifies this
      ensures Spec.Step(View(), out) == Spec.ListAll(w, old(View()), query)
      ensures View() == Runs.Exec(w, old(View()), Runs.DoList(query))
    {
      if w.cfg.protocol == Spec.Pinned(V03) {
        return Err(Spec.VersionMismatch);
      }
      if card.Some? {
        var settled := Settle(card.value);
        if settled.Err? {
          return Err(settled.error);
        }
        if version != Some(V10) {
          return Err(Spec.VersionMismatch);
        }
      }
      var c := EnsureCard();
      if c.Err? {
        return Err(c.error);
      }
      if version != Some(V10) {
        return Err(Spec.VersionMismatch);
      }
      var ready := Authorize(c.value);
      if ready.Err? {
        return Err(ready.error);
      }
      var (url, bearer) := ready.value;
      var reply := Issue(Spec.Envelope(w, View(), Spec.ListTasks, Spec.ListParams(query), url, bearer));
      if reply.Body? && !reply.json.Obj? {
        return Err(Spec.Malformed(reply));
      }
      var page: Option<Spec.Listing> := None;
      if reply.Body? && reply.json.Get("error").None? && reply.json.Get("result").Some? {
        page := w.cards.validateListing(reply.json.Get("result").value);
      }
      counts := counts + [Spec.Count(Spec.ListTasks, page.Some?)];
      out := if page.Some? then Ok(page.value) else Err(Spec.Unavailable(Spec.ListingFailure(reply)));
    }
  }
}
