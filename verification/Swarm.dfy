/** Decentralised handoffs of a support ticket between agents. */
module Swarm {
  import opened Wrappers

  type Agent = string

  datatype Handoff = Handoff(source: Agent, target: Agent, reason: string)

  datatype State = State(currentAgent: Agent, next: Option<Agent>, history: seq<Handoff>)

  function Visited(history: seq<Handoff>, current: Agent): set<Agent> {
    {current} + set h <- history :: h.target
  }

  /** The handoff contract: no self-handoff, only allow-listed targets, one history entry more. */
  function SwarmHandoff(current: Agent, target: Agent, state: State, reason: string, valid: set<Agent>)
    : Result<State, string>
  {
    if current == target then Err("self-handoff not allowed")
    else if target !in valid then Err("not a valid handoff target")
    else Ok(state.(history := state.history + [Handoff(current, target, reason)], next := Some(target)))
  }

  /** The first of `targets` that is allow-listed and not yet visited. */
  function FirstOpen(targets: seq<Agent>, visited: set<Agent>, valid: set<Agent>): Option<Agent> {
    if targets == [] then None
    else if targets[0] !in visited && targets[0] in valid then Some(targets[0])
    else FirstOpen(targets[1..], visited, valid)
  }

  method DecideHandoff(current: Agent, intent: string, state: State, table: map<string, seq<Agent>>, valid: set<Agent>)
    returns (target: Option<Agent>)
    ensures target == FirstOpen(TargetsOf(table, intent), Visited(state.history, current), valid)
  {
    var visited := set h <- state.history :: h.target;
    visited := visited + {current};
    assert visited == Visited(state.history, current);
    var targets := TargetsOf(table, intent);
    for i := 0 to |targets|
      invariant FirstOpen(targets, visited, valid) == FirstOpen(targets[i..], visited, valid)
    {
      if targets[i] !in visited && targets[i] in valid {
        return Some(targets[i]);
      }
    }
    return None;
  }

  function TargetsOf(table: map<string, seq<Agent>>, intent: string): seq<Agent> {
    if intent in table then table[intent] else []
  }

  // ---------- the route, read off the routing table ----------

  /** The allow-listed targets in order, each once, leaving out those already `seen`. */
  function Distinct(targets: seq<Agent>, valid: set<Agent>, seen: set<Agent>): (d: seq<Agent>)
    ensures forall i, j :: 0 <= i < j < |d| ==> d[i] != d[j]
    ensures forall a :: a in d <==> a in targets && a in valid && a !in seen
  {
    if targets == [] then []
    else if targets[0] in valid && targets[0] !in seen
    then [targets[0]] + Distinct(targets[1..], valid, seen + {targets[0]})
    else Distinct(targets[1..], valid, seen)
  }

  /**
   The agents a ticket is handed to when hops are unlimited. An initial agent that heads the
   sequence is passed over once and gets the ticket back right after.
   */
  function Tour(stops: seq<Agent>, initial: Agent): seq<Agent> {
    if stops == [] || stops[0] != initial then stops
    else if |stops| == 1 then []
    else [stops[1], stops[0]] + stops[2..]
  }

  function Route(targets: seq<Agent>, valid: set<Agent>, initial: Agent, maxHops: nat): seq<Agent> {
    var tour := Tour(Distinct(targets, valid, {}), initial);
    if maxHops < |tour| then tour[..maxHops] else tour
  }

  /** Who holds the ticket after it went along `route`. */
  function Holder(initial: Agent, route: seq<Agent>): Agent {
    if route == [] then initial else route[|route| - 1]
  }

  function Trail(initial: Agent, route: seq<Agent>, reason: Agent -> string): seq<Handoff> {
    seq(|route|, i requires 0 <= i < |route| =>
      Handoff(if i == 0 then initial else route[i - 1], route[i], reason(route[i])))
  }

  function After(initial: Agent, route: seq<Agent>, reason: Agent -> string): State {
    State(initial, if route == [] then None else Some(route[|route| - 1]), Trail(initial, route, reason))
  }

  /**
   The loop hands the ticket along the route and stops; the handoff contract never rejects on
   the way, so the state is the one with every stop recorded.
   */
  method ProcessTicket(initial: Agent, intent: string, table: map<string, seq<Agent>>, valid: set<Agent>,
                       reason: Agent -> string, maxHops: nat)
    returns (state: State, current: Agent)
    ensures var route := Route(TargetsOf(table, intent), valid, initial, maxHops);
            state == After(initial, route, reason) && current == Holder(initial, route)
  {
    ghost var targets := TargetsOf(table, intent);
    ghost var tour := Tour(Distinct(targets, valid, {}), initial);
    state := State(initial, None, []);
    current := initial;
    var hop := 0;
    while hop < maxHops
      invariant hop <= maxHops && hop <= |tour|
      invariant state == After(initial, tour[..hop], reason)
      invariant current == Holder(initial, tour[..hop])
    {
      var decision := DecideHandoff(current, intent, state, table, valid);
      TrailVisits(initial, tour[..hop], reason);
      NextStop(targets, valid, initial, hop);
      if decision.None? {
        break;
      }
      var target := decision.value;
      var handed := SwarmHandoff(current, target, state, reason(target), valid);
      TourIsLegal(Distinct(targets, valid, {}), initial);
      if handed.Err? {
        break;
      }
      TrailGrows(initial, tour, hop, reason);
      state := handed.value;
      current := if state.next.Some? then state.next.value else target;
      hop := hop + 1;
    }
    assert tour[..|tour|] == tour;
  }

  // ---------- the loop follows the route ----------

  lemma {:induction false} FirstOpenIsDistinct(
      targets: seq<Agent>, visited: set<Agent>, valid: set<Agent>, seen: set<Agent>)
    requires seen <= visited
    ensures FirstOpen(targets, visited, valid) == FirstOpen(Distinct(targets, valid, seen), visited, valid)
  {
    if targets != [] {
      var head, rest := targets[0], targets[1..];
      if head in valid && head !in seen {
        var d := Distinct(rest, valid, seen + {head});
        assert ([head] + d)[1..] == d;
        if head in visited {
          FirstOpenIsDistinct(rest, visited, valid, seen + {head});
        }
      } else {
        FirstOpenIsDistinct(rest, visited, valid, seen);
      }
    }
  }

  lemma {:induction false} FirstOpenAt(stops: seq<Agent>, visited: set<Agent>, valid: set<Agent>, j: nat)
    requires j <= |stops| && forall a :: a in stops ==> a in valid
    requires forall i :: 0 <= i < j ==> stops[i] in visited
    requires j < |stops| ==> stops[j] !in visited
    ensures FirstOpen(stops, visited, valid) == if j < |stops| then Some(stops[j]) else None
  {
    if j > 0 {
      assert stops[0] in visited;
      FirstOpenAt(stops[1..], visited, valid, j - 1);
    }
  }

  lemma StopAfter(stops: seq<Agent>, valid: set<Agent>, initial: Agent, k: nat)
    requires forall i, j :: 0 <= i < j < |stops| ==> stops[i] != stops[j]
    requires forall a :: a in stops ==> a in valid
    requires k <= |Tour(stops, initial)|
    ensures var tour := Tour(stops, initial);
            var visited := {Holder(initial, tour[..k])} + set a <- tour[..k];
            FirstOpen(stops, visited, valid) == if k < |tour| then Some(tour[k]) else None
  {
    var tour := Tour(stops, initial);
    var visited := {Holder(initial, tour[..k])} + set a <- tour[..k];
    if stops == [] {
      FirstOpenAt(stops, visited, valid, 0);
    } else if stops[0] != initial {
      forall i | 0 <= i < k ensures stops[i] in visited {
        assert tour[..k][i] == stops[i];
      }
      FirstOpenAt(stops, visited, valid, k);
    } else if k == 0 {
      FirstOpenAt(stops, visited, valid, 1);
    } else if k == 1 {
      assert visited == {stops[1]};
      FirstOpenAt(stops, visited, valid, 0);
    } else {
      SwappedVisits(stops, tour, k);
      assert forall i :: 0 <= i < k ==> stops[i] in visited;
      assert k < |stops| ==> stops[k] !in visited;
      FirstOpenAt(stops, visited, valid, k);
    }
  }

  /** Swapping the first two stops does not change which stops were visited after two or more. */
  lemma SwappedVisits(stops: seq<Agent>, tour: seq<Agent>, k: nat)
    requires |stops| >= 2 && tour == [stops[1], stops[0]] + stops[2..] && 2 <= k <= |tour|
    ensures (set a <- tour[..k]) == (set a <- stops[..k])
    ensures tour[..k][k - 1] in stops[..k]
    ensures k < |tour| ==> tour[k] == stops[k]
  {
    assert tour[..k] == [stops[1], stops[0]] + stops[2..k];
    assert stops[..k] == [stops[0], stops[1]] + stops[2..k];
  }

  /** After `k` hops along the tour, the next open target is the tour's next stop. */
  lemma NextStop(targets: seq<Agent>, valid: set<Agent>, initial: Agent, k: nat)
    requires k <= |Tour(Distinct(targets, valid, {}), initial)|
    ensures var tour := Tour(Distinct(targets, valid, {}), initial);
            var visited := {Holder(initial, tour[..k])} + set a <- tour[..k];
            FirstOpen(targets, visited, valid) == if k < |tour| then Some(tour[k]) else None
  {
    var stops := Distinct(targets, valid, {});
    var tour := Tour(stops, initial);
    FirstOpenIsDistinct(targets, {Holder(initial, tour[..k])} + (set a <- tour[..k]), valid, {});
    StopAfter(stops, valid, initial, k);
  }

  lemma TrailVisits(initial: Agent, route: seq<Agent>, reason: Agent -> string)
    ensures Visited(Trail(initial, route, reason), Holder(initial, route)) == {Holder(initial, route)} + set a <- route
  {
    var trail := Trail(initial, route, reason);
    forall a | a in route ensures a in (set h <- trail :: h.target) {
      var i :| 0 <= i < |route| && route[i] == a;
      assert trail[i] in trail && trail[i].target == a;
    }
  }

  lemma TrailGrows(initial: Agent, tour: seq<Agent>, hop: nat, reason: Agent -> string)
    requires hop < |tour|
    ensures Trail(initial, tour[..hop + 1], reason)
         == Trail(initial, tour[..hop], reason) + [Handoff(Holder(initial, tour[..hop]), tour[hop], reason(tour[hop]))]
  {
  }

  lemma TourIsLegal(stops: seq<Agent>, initial: Agent)
    requires forall i, j :: 0 <= i < j < |stops| ==> stops[i] != stops[j]
    ensures var tour := Tour(stops, initial);
            && (forall a :: a in tour ==> a in stops)
            && (forall i, j :: 0 <= i < j < |tour| ==> tour[i] != tour[j])
            && (forall k :: 0 <= k < |tour| ==> tour[k] != if k == 0 then initial else tour[k - 1])
  {
  }

  // ---------- what a ticket's run guarantees ----------

  /**
   The handoff contract: refused exactly for a self-handoff or a target that is not allow-listed;
   otherwise the target is next and one entry is added to the history, nothing else changing.
   */
  lemma HandoffContract(current: Agent, target: Agent, state: State, reason: string, valid: set<Agent>)
    ensures var handed := SwarmHandoff(current, target, state, reason, valid);
            && (handed.Err? <==> current == target || target !in valid)
            && (handed.Ok? ==>
                 && handed.value.next == Some(target) && handed.value.currentAgent == state.currentAgent
                 && |handed.value.history| == |state.history| + 1 && state.history <= handed.value.history
                 && handed.value.history[|state.history|] == Handoff(current, target, reason))
  {
  }

  /** An intent without a row has no targets. */
  lemma UnknownIntentStays(
      initial: Agent, intent: string, table: map<string, seq<Agent>>, valid: set<Agent>, maxHops: nat)
    ensures var route := Route(TargetsOf(table, intent), valid, initial, maxHops);
            route == if intent in table then Route(table[intent], valid, initial, maxHops) else []
  {
  }

  /**
   No agent is the target of two handoffs, and every handoff goes from the ticket's holder to an
   allow-listed target of the intent's sequence other than that holder.
   */
  predicate Legal(history: seq<Handoff>, targets: seq<Agent>, valid: set<Agent>, initial: Agent) {
    && (forall i, j :: 0 <= i < j < |history| ==> history[i].target != history[j].target)
    && (forall i :: 0 <= i < |history| ==>
         && history[i].target in valid && history[i].target in targets
         && history[i].source != history[i].target)
    && (forall i :: 0 <= i < |history| ==> history[i].source == if i == 0 then initial else history[i - 1].target)
  }

  lemma TrailIsLegal(initial: Agent, route: seq<Agent>, reason: Agent -> string, targets: seq<Agent>, valid: set<Agent>)
    requires forall i, j :: 0 <= i < j < |route| ==> route[i] != route[j]
    requires forall i :: 0 <= i < |route| ==> route[i] in valid && route[i] in targets
    requires forall k :: 0 <= k < |route| ==> route[k] != if k == 0 then initial else route[k - 1]
    ensures Legal(Trail(initial, route, reason), targets, valid, initial)
  {
    LegalIfShaped(Trail(initial, route, reason), route, targets, valid, initial);
  }

  lemma LegalIfShaped(trail: seq<Handoff>, route: seq<Agent>, targets: seq<Agent>, valid: set<Agent>, initial: Agent)
    requires |trail| == |route|
    requires forall i :: 0 <= i < |route| ==> trail[i].target == route[i]
    requires forall i :: 0 <= i < |route| ==> trail[i].source == if i == 0 then initial else route[i - 1]
    requires forall i, j :: 0 <= i < j < |route| ==> route[i] != route[j]
    requires forall i :: 0 <= i < |route| ==> route[i] in valid && route[i] in targets
    requires forall k :: 0 <= k < |route| ==> route[k] != if k == 0 then initial else route[k - 1]
    ensures Legal(trail, targets, valid, initial)
  {
  }

  lemma RouteIsLegal(targets: seq<Agent>, valid: set<Agent>, initial: Agent, maxHops: nat)
    ensures var route := Route(targets, valid, initial, maxHops);
            && (forall i, j :: 0 <= i < j < |route| ==> route[i] != route[j])
            && (forall i :: 0 <= i < |route| ==> route[i] in valid && route[i] in targets)
            && (forall k :: 0 <= k < |route| ==> route[k] != if k == 0 then initial else route[k - 1])
  {
    var stops := Distinct(targets, valid, {});
    var tour := Tour(stops, initial);
    var route := Route(targets, valid, initial, maxHops);
    TourIsLegal(stops, initial);
    assert forall a :: a in route ==> a in tour;
    assert forall k :: 0 <= k < |route| ==> route[k] == tour[k];
  }

  /**
   For any table, allow-list, initial agent and cap: no agent is the target of two handoffs, and
   every handoff goes from the ticket's holder to another, allow-listed target of the intent.
   */
  lemma HandoffsAreLegal(targets: seq<Agent>, valid: set<Agent>, initial: Agent, maxHops: nat, reason: Agent -> string)
    ensures Legal(After(initial, Route(targets, valid, initial, maxHops), reason).history, targets, valid, initial)
    ensures var history := After(initial, Route(targets, valid, initial, maxHops), reason).history;
            && (forall i, j :: 0 <= i < j < |history| ==> history[i].target != history[j].target)
            && (forall i :: 0 <= i < |history| ==>
                 && history[i].target in valid && history[i].target in targets
                 && history[i].source != history[i].target)
            && (forall i :: 0 <= i < |history| ==>
                 history[i].source == if i == 0 then initial else history[i - 1].target)
  {
    var route := Route(targets, valid, initial, maxHops);
    RouteIsLegal(targets, valid, initial, maxHops);
    TrailIsLegal(initial, route, reason, targets, valid);
  }

  /** Hops never exceed the cap nor the number of distinct allow-listed targets. */
  lemma HopsAreBounded(targets: seq<Agent>, valid: set<Agent>, initial: Agent, maxHops: nat)
    ensures var hops := |Route(targets, valid, initial, maxHops)|;
            hops <= maxHops && hops <= |(set a <- targets | a in valid)|
  {
    var stops := Distinct(targets, valid, {});
    CountDistinct(stops);
    assert (set a <- stops) == (set a <- targets | a in valid);
  }

  lemma {:induction false} CountDistinct(stops: seq<Agent>)
    requires forall i, j :: 0 <= i < j < |stops| ==> stops[i] != stops[j]
    ensures |(set a <- stops)| == |stops|
  {
    if stops != [] {
      var rest := stops[1..];
      CountDistinct(rest);
      assert stops == [stops[0]] + rest;
      assert (set a <- stops) == {stops[0]} + set a <- rest;
    }
  }

  /** Below the cap, every allow-listed target of the intent gets the ticket, bar a lone initial agent. */
  lemma SequenceIsExhausted(targets: seq<Agent>, valid: set<Agent>, initial: Agent, maxHops: nat, a: Agent)
    requires |Route(targets, valid, initial, maxHops)| < maxHops
    ensures a in Route(targets, valid, initial, maxHops)
       <==> a in targets && a in valid && !(a == initial && forall b :: b in targets && b in valid ==> b == initial)
  {
    var stops := Distinct(targets, valid, {});
    var tour := Tour(stops, initial);
    assert Route(targets, valid, initial, maxHops) == tour;
    if stops == [initial] {
      assert tour == [];
    } else if stops != [] && stops[0] == initial {
      assert stops[1] in stops && stops[1] != initial;
      assert stops == [stops[0], stops[1]] + stops[2..];
      assert tour == [stops[1], stops[0]] + stops[2..];
    } else if stops != [] {
      assert stops[0] in stops && tour == stops;
    }
  }

  function IndexOf(stops: seq<Agent>, a: Agent): (i: nat)
    requires a in stops
    ensures i < |stops| && stops[i] == a && a !in stops[..i]
  {
    if stops[0] == a then 0 else IndexOf(stops[1..], a) + 1
  }

  predicate ComesBack(stops: seq<Agent>, initial: Agent, maxHops: nat) {
    && initial in stops && |stops| >= 2
    && maxHops > (if IndexOf(stops, initial) == 0 then 1 else IndexOf(stops, initial))
  }

  /**
   The initial agent is not counted as visited once it has handed off, so it can get the ticket
   back: exactly when it is itself an allow-listed target with at least one other beside it and
   the cap reaches its turn.
   */
  lemma TicketComesBack(targets: seq<Agent>, valid: set<Agent>, initial: Agent, maxHops: nat)
    ensures initial in Route(targets, valid, initial, maxHops) <==>
            ComesBack(Distinct(targets, valid, {}), initial, maxHops)
  {
    var stops := Distinct(targets, valid, {});
    var tour := Tour(stops, initial);
    var route := Route(targets, valid, initial, maxHops);
    TourIsLegal(stops, initial);
    if initial in stops && |stops| >= 2 {
      var at := if IndexOf(stops, initial) == 0 then 1 else IndexOf(stops, initial);
      assert tour[at] == initial;
      assert initial in route ==> exists k :: 0 <= k < |route| && route[k] == initial && tour[k] == initial;
      assert at < |route| ==> route[at] == initial;
    }
  }

  /** The table's own row for bugs, started at its own first agent, goes coder, critic, coder. */
  lemma BugTicketReturnsToCoder(reason: Agent -> string)
    ensures var history := After("coder", Route(["coder", "critic"], {"coder", "critic"}, "coder", 5), reason).history;
            history == [Handoff("coder", "critic", reason("critic")), Handoff("critic", "coder", reason("coder"))]
  {
    assert Distinct(["coder", "critic"], {"coder", "critic"}, {}) == ["coder", "critic"] by {
      assert ["coder", "critic"][1..] == ["critic"];
      assert ["critic"][1..] == [];
    }
    assert Route(["coder", "critic"], {"coder", "critic"}, "coder", 5) == ["critic", "coder"];
    assert ["critic", "coder"][..1] == ["critic"];
  }
}
