/** The agent node object: resolve a client, drain its stream, sanitize, audit. */
module AgentNodes {
  import opened Wrappers
  import opened Json
  import opened Streams
  import opened A2AClients
  import opened ConnectionManagers
  import opened NodeSpec
  import Policy
  import Spec = ClientSpec
  import Pools = PoolSpec
  import Runs = ClientRuns

  class A2AAgentNode {
    const cardUrl: string
    const skill: Option<string>
    const sanitize: string -> Option<string>
    const words: Wording
    const manager: A2AConnectionManager?
    // The configuration of the client built when neither a client nor a manager was given.
    const own: Spec.World
    var client: A2AClient?
    var audit: seq<AuditEvent>

    constructor (cardUrl: string, skill: Option<string>, sanitize: string -> Option<string>, words: Wording,
                 manager: A2AConnectionManager?, client: A2AClient?, world: Spec.World, auth: Spec.Auth)
      ensures this.cardUrl == cardUrl && this.skill == skill && this.sanitize == sanitize && this.words == words
      ensures this.manager == manager && this.client == client && audit == []
      ensures own == world.(cfg := Spec.DefaultConfig(cardUrl, auth, Policy.EndpointPolicy(false, false, [], false)))
    {
      this.cardUrl, this.skill, this.sanitize, this.words := cardUrl, skill, sanitize, words;
      this.manager, this.client := manager, client;
      own := world.(cfg := Spec.DefaultConfig(cardUrl, auth, Policy.EndpointPolicy(false, false, [], false)));
      audit := [];
    }

    ghost predicate Ready()
      reads this, manager
    {
      manager != null ==> manager.Valid()
    }

    /** An injected client wins, then the manager's pooled one, then one of the node's own. */
    method ResolveClient() returns (out: Result<A2AClient, Spec.Error>)
      requires Ready()
      modifies this`client, manager
      ensures Ready() && audit == old(audit)
      ensures out.Err? <==> old(client) == null && manager != null && !Pools.Admits(manager.m, cardUrl)
      ensures out.Err? ==> out.error == Spec.Unavailable(Spec.HostDenied)
      ensures old(client) != null ==>
                && client == old(client) && out == Ok(old(client))
                && (manager != null ==> unchanged(manager))
      ensures old(client) == null && manager != null ==>
                && client == null
                && (out.Ok? ==> cardUrl in manager.pool && out.value == manager.pool[cardUrl])
      ensures old(client) == null && manager != null && out.Ok? ==> out.value in manager.handed
      ensures old(client) == null && manager != null ==>
                && manager.View() == Pools.Lookup(manager.m, old(manager.View()), cardUrl)
                && forall c :: c in manager.handed ==> c in old(manager.handed) || fresh(c)
      ensures old(client) == null && manager == null ==>
                out.Ok? && fresh(out.value) && client == out.value
                && out.value.w == own && out.value.View() == Spec.Initial(None, false)
    {
      if client != null {
        return Ok(client);
      }
      if manager != null {
        out := manager.GetClient(cardUrl);
        return;
      }
      client := new A2AClient(own, None, false);
      out := Ok(client);
    }

    /** The accumulation loop over the artifacts received. */
    static method Collect(artifacts: seq<Artifact>) returns (texts: seq<string>, count: nat)
      ensures texts == Texts(artifacts) && count == |artifacts|
    {
      texts, count := [], 0;
      while count < |artifacts|
        invariant count <= |artifacts| && texts == Texts(artifacts[..count])
      {
        var parts := artifacts[count].parts;
        ghost var before := texts;
        for k := 0 to |parts|
          invariant texts == before + PartTexts(parts[..k])
        {
          assert parts[..k + 1] == parts[..k] + [parts[k]];
          PartTextsConcat(parts[..k], [parts[k]]);
          if parts[k].kind == TextPart && parts[k].text.GetOr("") != "" {
            texts := texts + [parts[k].text.value];
          }
        }
        assert parts[..|parts|] == parts;
        assert artifacts[..count + 1] == artifacts[..count] + [artifacts[count]];
        TextsConcat(artifacts[..count], [artifacts[count]]);
        count := count + 1;
      }
      assert artifacts[..count] == artifacts;
    }

    /** The manager's part of a delegation: denied, or a lookup and one use of the client found. */
    ghost predicate Pooled(before: Pools.Pool, after: Pools.Pool, message: Json,
                           artifacts: seq<Artifact>, failure: Option<Spec.Error>)
      requires manager != null
    {
      var p := Pools.Lookup(manager.m, before, cardUrl);
      if !Pools.Admits(manager.m, cardUrl) then
        after == before && artifacts == [] && failure == Some(Spec.Unavailable(Spec.HostDenied))
      else
        && cardUrl in p.index && p.index[cardUrl] < |p.clients|
        && var (w, st) := p.clients[p.index[cardUrl]];
        && after == Pools.PoolExec(manager.m, p, Pools.Use(p.index[cardUrl], Runs.DoSend(message, skill)))
        && Spec.Sent(after.clients[p.index[cardUrl]].1, artifacts, failure) == Spec.SendTask(w, st, message, skill)
    }

    /** Resolves a client and drains its task stream; whatever goes wrong is the failure returned. */
    method Delegate(message: Json) returns (artifacts: seq<Artifact>, failure: Option<Spec.Error>)
      requires Ready()
      modifies this`client, manager, if manager == null then {} else set c <- manager.handed
      modifies if client == null then {} else {client}
      ensures Ready() && audit == old(audit)
      ensures manager != null ==> forall c :: c in manager.handed ==> c in old(manager.handed) || fresh(c)
      ensures old(client) == null && client != null ==> fresh(client)
      ensures old(client) != null ==>
                && client == old(client)
                && Spec.Sent(client.View(), artifacts, failure)
                   == Spec.SendTask(client.w, old(client.View()), message, skill)
      ensures old(client) == null && manager == null ==>
                && client != null && client.w == own
                && Spec.Sent(client.View(), artifacts, failure)
                   == Spec.SendTask(own, Spec.Initial(None, false), message, skill)
      ensures old(client) == null && manager != null ==>
                client == null && Pooled(old(manager.View()), manager.View(), message, artifacts, failure)
    {
      var resolved := ResolveClient();
      if resolved.Err? {
        return [], Some(resolved.error);
      }
      if client == null {
        artifacts, failure := manager.SendThrough(resolved.value, manager.place[cardUrl], message, skill);
      } else {
        artifacts, failure := resolved.value.SendTask(message, skill);
      }
    }

    /** One turn; nothing is returned when the sanitizer raises. */
    method Ainvoke(contents: seq<Option<string>>) returns (out: Option<Update>, ghost d: Delegation)
      requires Ready()
      modifies this, manager, if manager == null then {} else set c <- manager.handed
      modifies if client == null then {} else {client}
      ensures Ready()
      ensures manager != null ==> forall c :: c in manager.handed ==> c in old(manager.handed) || fresh(c)
      ensures old(client) == null && client != null ==> fresh(client)
      ensures out == Outcome(words, sanitize, d)
      ensures audit == old(audit) + Audited(sanitize, skill, d)
      ensures old(client) != null ==>
                && client == old(client)
                && Spec.Sent(client.View(), d.artifacts, d.failure)
                   == Spec.SendTask(client.w, old(client.View()), UserMessage(LastText(contents)), skill)
      ensures old(client) == null && manager == null ==>
                && client != null && client.w == own
                && Spec.Sent(client.View(), d.artifacts, d.failure)
                   == Spec.SendTask(own, Spec.Initial(None, false), UserMessage(LastText(contents)), skill)
      ensures old(client) == null && manager != null ==>
                && client == null
                && Pooled(old(manager.View()), manager.View(), UserMessage(LastText(contents)), d.artifacts, d.failure)
    {
      var artifacts, failure := Delegate(UserMessage(LastText(contents)));
      d := Delegation(artifacts, failure);
      out := Conclude(artifacts, failure);
    }

    /** What is returned and audited once the stream has been drained. */
    method Conclude(artifacts: seq<Artifact>, failure: Option<Spec.Error>) returns (out: Option<Update>)
      modifies this`audit
      ensures out == Outcome(words, sanitize, Delegation(artifacts, failure))
      ensures audit == old(audit) + Audited(sanitize, skill, Delegation(artifacts, failure))
    {
      if failure.Some? {
        audit := audit + [FailedEvent(skill)];
        return Some(Update(ErrorNote(Told(words, failure.value)), true, None));
      }
      var texts, count := Collect(artifacts);
      var answer := if texts == [] then Some("") else sanitize(JoinLines(texts));
      if answer.None? {
        return None;
      }
      audit := audit + [CompletedEvent(skill, count)];
      out := Some(Update(Answer(answer.value), false, Some(count)));
    }
  }
}
