/** The outbound connection pool as a transition system over every client it ever handed out. */
module PoolSpec {
  import opened Wrappers
  import opened Policy
  import opened Streams
  import opened ClientSpec
  import opened ClientRuns

  /** The network as one client sees it. */
  datatype Wire = Wire(grants: seq<Request> -> Option<string>, replies: seq<Request> -> Reply)

  datatype Manager = Manager(
    allowlist: seq<string>, strict: bool, auth: Auth,
    net: NetLibs, cards: CardLibs, streams: StreamLibs,
    wires: nat -> Wire)

  datatype Pool = Pool(clients: seq<(World, State)>, index: map<string, nat>)

  datatype PoolOp =
    | GetClient(url: string)
    | Use(client: nat, op: Op)
    | CloseAll

  predicate Admits(m: Manager, url: string) {
    Allowed(m.net, HostOf(m.net, url), m.allowlist, m.strict)
  }

  function PoolPolicy(m: Manager): EndpointPolicy {
    EndpointPolicy(false, false, m.allowlist, m.strict)
  }

  /** The `i`-th client handed out, for `url`: the manager's auth and policy, defaults elsewhere. */
  function ClientWorld(m: Manager, i: nat, url: string): World {
    World(m.net, m.cards, m.streams, m.wires(i).grants, m.wires(i).replies,
          DefaultConfig(url, m.auth, PoolPolicy(m)))
  }

  function Lookup(m: Manager, p: Pool, url: string): Pool {
    if !Admits(m, url) || url in p.index then p
    else Pool(p.clients + [(ClientWorld(m, |p.clients|, url), Initial(None, false))], p.index[url := |p.clients|])
  }

  function Closed(p: Pool): Pool {
    Pool(seq(|p.clients|, i requires 0 <= i < |p.clients| =>
           if i in p.index.Values then (p.clients[i].0, Close(p.clients[i].1)) else p.clients[i]),
         map[])
  }

  function PoolExec(m: Manager, p: Pool, op: PoolOp): Pool {
    match op
    case GetClient(url) => Lookup(m, p, url)
    case Use(i, what) =>
      if i < |p.clients|
      then p.(clients := p.clients[i := (p.clients[i].0, Exec(p.clients[i].0, p.clients[i].1, what))])
      else p
    case CloseAll => Closed(p)
  }

  /**
   Running an operation on a client the manager handed out is the pool's own `Use` move: it is
   enough that this client did what the operation does and the other clients did nothing.
   */
  lemma UseMove(m: Manager, p: Pool, q: Pool, i: nat, op: Op)
    requires |q.clients| == |p.clients| && i < |p.clients| && q.index == p.index
    requires forall j :: 0 <= j < |p.clients| && j != i ==> q.clients[j] == p.clients[j]
    requires q.clients[i] == (p.clients[i].0, Exec(p.clients[i].0, p.clients[i].1, op))
    ensures q == PoolExec(m, p, Use(i, op))
  {
  }

  function PoolRun(m: Manager, p: Pool, ops: seq<PoolOp>): Pool
    decreases |ops|
  {
    if ops == [] then p else PoolRun(m, PoolExec(m, p, ops[0]), ops[1..])
  }

  const Empty := Pool([], map[])

  // ---------- the pool invariant ----------

  ghost predicate ClientGood(m: Manager, p: Pool, i: nat)
    requires i < |p.clients|
  {
    var (w, st) := p.clients[i];
    w == ClientWorld(m, i, w.cfg.cardUrl) && Admits(m, w.cfg.cardUrl) && Inv(w, st)
  }

  ghost predicate PoolInv(m: Manager, p: Pool) {
    && (forall i :: 0 <= i < |p.clients| ==> ClientGood(m, p, i))
    && (forall u :: u in p.index ==> p.index[u] < |p.clients| && p.clients[p.index[u]].0.cfg.cardUrl == u)
  }

  lemma LookupKeeps(m: Manager, p: Pool, url: string)
    requires PoolInv(m, p)
    ensures PoolInv(m, Lookup(m, p, url))
  {
    var q := Lookup(m, p, url);
    forall i | 0 <= i < |q.clients|
      ensures ClientGood(m, q, i)
      ensures i < |p.clients| ==> q.clients[i] == p.clients[i]
    {
      if i < |p.clients| {
        assert ClientGood(m, p, i);
      }
    }
  }

  lemma PoolExecKeeps(m: Manager, p: Pool, op: PoolOp)
    requires PoolInv(m, p)
    ensures PoolInv(m, PoolExec(m, p, op))
  {
    var q := PoolExec(m, p, op);
    if op.GetClient? {
      LookupKeeps(m, p, op.url);
      return;
    }
    forall i | 0 <= i < |q.clients|
      ensures ClientGood(m, q, i)
      ensures i < |p.clients| ==> q.clients[i].0 == p.clients[i].0
    {
      if i < |p.clients| {
        assert ClientGood(m, p, i);
        var (w, st) := p.clients[i];
        if op.Use? && op.client == i {
          ExecKeeps(w, st, op.op);
        } else {
          ExecKeeps(w, st, DoClose);
        }
      }
    }
  }

  lemma {:induction false} PoolRunKeeps(m: Manager, p: Pool, ops: seq<PoolOp>)
    requires PoolInv(m, p)
    ensures PoolInv(m, PoolRun(m, p, ops))
    decreases |ops|
  {
    if ops != [] {
      PoolExecKeeps(m, p, ops[0]);
      PoolRunKeeps(m, PoolExec(m, p, ops[0]), ops[1..]);
    }
  }

  /**
   Whatever is looked up, used and closed in whatever order: the pool maps distinct URLs to
   distinct clients, each pooled URL is admitted and is its client's own; and when the manager
   restricts hosts, every RPC POST by any client it ever handed out, pooled still or not, passed
   the manager's policy and went to a host the manager itself would admit.
   */
  lemma PooledPostsAdmitted(m: Manager, ops: seq<PoolOp>)
    ensures var p := PoolRun(m, Empty, ops);
            && (forall u, v :: u in p.index && v in p.index && p.index[u] == p.index[v] ==> u == v)
            && (forall u :: u in p.index ==>
                 Admits(m, u) && p.index[u] < |p.clients| && p.clients[p.index[u]].0.cfg.cardUrl == u)
            && (m.allowlist != [] || m.strict ==>
                 forall i, r :: 0 <= i < |p.clients| && r in p.clients[i].1.log && r.Rpc? ==>
                   Passes(m.net, PoolPolicy(m), r.url) && Admits(m, r.url))
  {
    PoolRunKeeps(m, Empty, ops);
    var p := PoolRun(m, Empty, ops);
    forall u | u in p.index
      ensures Admits(m, u)
    {
      assert ClientGood(m, p, p.index[u]);
    }
    if m.allowlist != [] || m.strict {
      forall i, r | 0 <= i < |p.clients| && r in p.clients[i].1.log && r.Rpc?
        ensures Passes(m.net, PoolPolicy(m), r.url) && Admits(m, r.url)
      {
        assert ClientGood(m, p, i);
        PassedHostIsAllowed(m.net, PoolPolicy(m), r.url);
      }
    }
  }

  /**
   Over every pool run, a POST with a bearer value by any client ever handed out passes the pool's
   policy and has the origin of the URL that client was asked for.
   */
  lemma PooledCredentialsStayHome(m: Manager, ops: seq<PoolOp>)
    ensures var p := PoolRun(m, Empty, ops);
            forall i, r :: 0 <= i < |p.clients| && r in p.clients[i].1.log && r.Rpc? && r.bearer.Some? ==>
              && Passes(m.net, PoolPolicy(m), r.url)
              && OriginOf(m.net, r.url) == OriginOf(m.net, p.clients[i].0.cfg.cardUrl)
  {
    PoolRunKeeps(m, Empty, ops);
    var p := PoolRun(m, Empty, ops);
    forall i, r | 0 <= i < |p.clients| && r in p.clients[i].1.log && r.Rpc? && r.bearer.Some?
      ensures Passes(m.net, PoolPolicy(m), r.url)
      ensures OriginOf(m.net, r.url) == OriginOf(m.net, p.clients[i].0.cfg.cardUrl)
    {
      assert ClientGood(m, p, i);
    }
  }

  /** A run is its moves one after the other. */
  lemma {:induction false} PoolRunStep(m: Manager, p: Pool, ops: seq<PoolOp>, op: PoolOp)
    ensures PoolRun(m, p, []) == p
    ensures PoolRun(m, p, ops + [op]) == PoolExec(m, PoolRun(m, p, ops), op)
    decreases |ops|
  {
    if ops == [] {
      assert [] + [op] == [op] && [op][1..] == [];
      assert PoolRun(m, p, [op]) == PoolRun(m, PoolExec(m, p, op), [op][1..]);
    } else {
      assert (ops + [op])[0] == ops[0] && (ops + [op])[1..] == ops[1..] + [op];
      PoolRunStep(m, PoolExec(m, p, ops[0]), ops[1..], op);
    }
  }

  /** Until the pool is closed, a URL keeps the client it was first given. */
  lemma {:induction false} SameClientUntilClosed(m: Manager, p: Pool, ops: seq<PoolOp>, url: string)
    requires url in p.index && CloseAll !in ops
    ensures var q := PoolRun(m, p, ops);
            url in q.index && q.index[url] == p.index[url] && Lookup(m, q, url) == q
    decreases |ops|
  {
    if ops != [] {
      assert ops[0] in ops;
      SameClientUntilClosed(m, PoolExec(m, p, ops[0]), ops[1..], url);
    }
  }

  /**
   Closing closes every pooled client and empties the pool, forgetting nothing else; a later
   lookup of any admitted URL hands out a client never handed out before.
   */
  lemma ClosingStartsOver(m: Manager, p: Pool, url: string)
    requires PoolInv(m, p) && Admits(m, url)
    ensures var q := PoolExec(m, p, CloseAll);
            && q.index == map[] && |q.clients| == |p.clients|
            && (forall u :: u in p.index ==> !q.clients[p.index[u]].1.httpOpen)
            && (forall i :: 0 <= i < |p.clients| ==>
                 q.clients[i].0 == p.clients[i].0 && q.clients[i].1.log == p.clients[i].1.log
                 && q.clients[i].1.card == p.clients[i].1.card)
            && Lookup(m, q, url).index == map[url := |p.clients|]
  {
    forall u | u in p.index
      ensures !Closed(p).clients[p.index[u]].1.httpOpen
    {
      assert p.index[u] in p.index.Values;
    }
  }
}
