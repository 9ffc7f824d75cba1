/** The connection manager object: a pool of client objects, refining the pool specification. */
module ConnectionManagers {
  import opened Wrappers
  import opened Json
  import opened Streams
  import opened A2AClients
  import ClientSpec
  import Pools = PoolSpec
  import Runs = ClientRuns

  class A2AConnectionManager {
    const m: Pools.Manager
    var pool: map<string, A2AClient>
    var created: nat
    // Every client ever handed out, oldest first, and the place of each pooled one.
    ghost var handed: seq<A2AClient>
    ghost var place: map<string, nat>

    ghost predicate Valid()
      reads this
    {
      && created == |handed|
      && place.Keys == pool.Keys
      && (forall u :: u in place ==> place[u] < |handed| && handed[place[u]] == pool[u])
      && (forall i, j :: 0 <= i < j < |handed| ==> handed[i] != handed[j])
    }

    ghost function View(): Pools.Pool
      reads this, handed
    {
      Pools.Pool(
        seq(|handed|, i requires 0 <= i < |handed| reads this, handed => (handed[i].w, handed[i].View())), place)
    }

    constructor (m: Pools.Manager)
      ensures Valid() && this.m == m && View() == Pools.Empty
    {
      this.m := m;
      pool, created, handed, place := map[], 0, [], map[];
    }

    method GetClient(cardUrl: string) returns (out: Result<A2AClient, ClientSpec.Error>)
      requires Valid()
      modifies this
      ensures Valid() && View() == Pools.PoolExec(m, old(View()), Pools.GetClient(cardUrl))
      ensures if Pools.Admits(m, cardUrl) then out.Ok? && cardUrl in pool && out.value == pool[cardUrl]
              else out == Err(ClientSpec.Unavailable(ClientSpec.HostDenied))
      ensures cardUrl in old(pool) ==> pool == old(pool)
      ensures old(handed) <= handed && forall c :: c in handed ==> c in old(handed) || fresh(c)
      ensures out.Ok? && cardUrl !in old(pool) ==> fresh(out.value)
    {
      if !Pools.Admits(m, cardUrl) {
        return Err(ClientSpec.Unavailable(ClientSpec.HostDenied));
      }
      if cardUrl !in pool {
        var client := new A2AClient(Pools.ClientWorld(m, created, cardUrl), None, false);
        pool := pool[cardUrl := client];
        place := place[cardUrl := |handed|];
        handed := handed + [client];
        created := created + 1;
        assert View().clients == old(View()).clients + [(client.w, client.View())];
      }
      out := Ok(pool[cardUrl]);
    }

    /** Closes the clients of the pool one by one. */
    method CloseEach()
      requires Valid()
      modifies handed`httpOpen
      ensures Valid()
      ensures forall i | 0 <= i < |handed| :: handed[i].httpOpen == (i !in place.Values && old(handed[i].httpOpen))
    {
      var todo := pool.Keys;
      ghost var done: set<nat> := {};
      while todo != {}
        invariant todo <= pool.Keys
        invariant done <= place.Values && forall u :: u in place && u !in todo ==> place[u] in done
        invariant forall i | 0 <= i < |handed| :: handed[i].httpOpen == (i !in done && old(handed[i].httpOpen))
        decreases todo
      {
        var url :| url in todo;
        pool[url].Aclose();
        done := done + {place[url]};
        todo := todo - {url};
      }
      assert done == place.Values;
    }

    method Aclose()
      requires Valid()
      modifies this, handed
      ensures Valid() && handed == old(handed) && pool == map[]
      ensures View() == Pools.PoolExec(m, old(View()), Pools.CloseAll)
    {
      CloseEach();
      pool, place := map[], map[];
    }

    /** A task call on a client this manager handed out is the pool's own `Use` move. */
    method SendThrough(client: A2AClient, ghost i: nat, message: Json, skill: Option<string>)
      returns (artifacts: seq<Artifact>, failure: Option<ClientSpec.Error>)
      requires Valid() && i < |handed| && handed[i] == client
      modifies client
      ensures Valid()
      ensures View() == Pools.PoolExec(m, old(View()), Pools.Use(i, Runs.DoSend(message, skill)))
      ensures ClientSpec.Sent(client.View(), artifacts, failure)
           == ClientSpec.SendTask(client.w, old(client.View()), message, skill)
    {
      artifacts, failure := client.SendTask(message, skill);
      Pools.UseMove(m, old(View()), View(), i, Runs.DoSend(message, skill));
    }
  }
}
