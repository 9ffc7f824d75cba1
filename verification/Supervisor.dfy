/** The analysis domain: keyword routing and the supervisor graph with its loop breaker. */
module Supervisor {
  import opened Wrappers
  import Text

  // ---------- routing ----------

  datatype Rule = Rule(keywords: seq<string>, agent: string)

  /** A score table with its leaves in order, fallback first, and rules that score for them. */
  predicate WellFormed(leaves: seq<string>, rules: seq<Rule>) {
    leaves != [] && forall r <- rules :: r.agent in leaves
  }

  function Matched(keywords: seq<string>, text: string): nat {
    if keywords == [] then 0
    else Matched(keywords[..|keywords| - 1], text) + (if Text.Contains(text, keywords[|keywords| - 1]) then 1 else 0)
  }

  function Score(rules: seq<Rule>, text: string, agent: string): nat {
    if rules == [] then 0
    else
      var last := rules[|rules| - 1];
      Score(rules[..|rules| - 1], text, agent) + (if last.agent == agent then Matched(last.keywords, text) else 0)
  }

  /** `max` over the leaves, which keeps the earliest of several best ones. */
  function Best(scores: map<string, nat>, leaves: seq<string>): (best: string)
    requires leaves != [] && forall a :: a in leaves ==> a in scores
    ensures best in leaves
  {
    if |leaves| == 1 then leaves[0]
    else
      var best := Best(scores, leaves[..|leaves| - 1]);
      var last := leaves[|leaves| - 1];
      if scores[last] > scores[best] then last else best
  }

  function Tally(leaves: seq<string>, rules: seq<Rule>, text: string): map<string, nat> {
    map a | a in leaves :: Score(rules, text, a)
  }

  function Routed(leaves: seq<string>, rules: seq<Rule>, text: string): string
    requires leaves != []
  {
    Best(Tally(leaves, rules, text), leaves)
  }

  /** `max` already settles on the first leaf when nothing matched; the code's own fallback agrees with it. */
  method SimulateDomainSupervisor(leaves: seq<string>, rules: seq<Rule>, lower: string) returns (agent: string)
    requires WellFormed(leaves, rules)
    ensures agent == Routed(leaves, rules, lower)
  {
    var scores: map<string, nat> := map a | a in leaves :: 0;
    for i := 0 to |rules|
      invariant scores == Tally(leaves, rules[..i], lower)
    {
      assert rules[..i + 1][..i] == rules[..i];
      var keywords, target := rules[i].keywords, rules[i].agent;
      assert rules[i] in rules;
      ghost var before := scores;
      for j := 0 to |keywords|
        invariant target in before && scores == before[target := before[target] + Matched(keywords[..j], lower)]
      {
        assert keywords[..j + 1][..j] == keywords[..j];
        if Text.Contains(lower, keywords[j]) {
          scores := scores[target := scores[target] + 1];
        }
      }
      assert keywords[..|keywords|] == keywords;
    }
    assert rules[..|rules|] == rules;
    var best := Best(scores, leaves);
    RoutedIsBest(leaves, rules, lower);
    return if scores[best] > 0 then best else leaves[0];
  }

  /** Keyword `j` of rule `i` counts for `agent`: it is a rule of the agent's and the keyword occurs in the text. */
  predicate Occurs(rules: seq<Rule>, text: string, agent: string, i: nat, j: nat) {
    && i < |rules| && rules[i].agent == agent
    && j < |rules[i].keywords| && Text.Contains(text, rules[i].keywords[j])
  }

  function Hits(rules: seq<Rule>, text: string, agent: string): set<(nat, nat)> {
    set i: nat, j: nat | i < |rules| && j < |rules[i].keywords| && Occurs(rules, text, agent, i, j) :: (i, j)
  }

  function RowHits(keywords: seq<string>, text: string, i: nat): set<(nat, nat)> {
    set j: nat | j < |keywords| && Text.Contains(text, keywords[j]) :: (i, j)
  }

  lemma {:induction false} MatchedCountsRow(keywords: seq<string>, text: string, i: nat)
    ensures Matched(keywords, text) == |RowHits(keywords, text, i)|
  {
    if keywords != [] {
      var n := |keywords| - 1;
      var init := keywords[..n];
      MatchedCountsRow(init, text, i);
      assert RowHits(keywords, text, i)
          == RowHits(init, text, i) + (if Text.Contains(text, keywords[n]) then {(i, n)} else {});
    }
  }

  lemma HitsStep(rules: seq<Rule>, text: string, agent: string)
    requires rules != []
    ensures var n := |rules| - 1;
            var before, row := Hits(rules[..n], text, agent), RowHits(rules[n].keywords, text, n);
            Hits(rules, text, agent) == (if rules[n].agent == agent then before + row else before) && before !! row
  {
    var n := |rules| - 1;
    var init := rules[..n];
    forall i: nat, j: nat | i < n
      ensures Occurs(rules, text, agent, i, j) == Occurs(init, text, agent, i, j)
    {
      assert rules[i] == init[i];
    }
    forall p
      ensures p in Hits(rules, text, agent) <==>
              p in Hits(init, text, agent) || (rules[n].agent == agent && p in RowHits(rules[n].keywords, text, n))
    {
      assert p.0 < n ==> rules[p.0] == init[p.0];
    }
  }

  /** A leaf's score is the number of keyword entries of its rules that occur in the text. */
  lemma {:induction false} ScoreCountsHits(rules: seq<Rule>, text: string, agent: string)
    ensures Score(rules, text, agent) == |Hits(rules, text, agent)|
  {
    if rules != [] {
      var n := |rules| - 1;
      var init, last := rules[..n], rules[n];
      ScoreCountsHits(init, text, agent);
      MatchedCountsRow(last.keywords, text, n);
      HitsStep(rules, text, agent);
    }
  }

  lemma {:induction false} BestIsEarliestMaximum(scores: map<string, nat>, leaves: seq<string>)
    requires leaves != [] && forall a :: a in leaves ==> a in scores
    ensures var best := Best(scores, leaves);
            && (forall a :: a in leaves ==> scores[a] <= scores[best])
            && exists i :: 0 <= i < |leaves| && leaves[i] == best
                 && forall k :: 0 <= k < i ==> scores[leaves[k]] < scores[best]
  {
    if |leaves| == 1 {
      assert leaves[0] == Best(scores, leaves);
    } else {
      var init, last := leaves[..|leaves| - 1], leaves[|leaves| - 1];
      BestIsEarliestMaximum(scores, init);
      assert leaves == init + [last];
      var b := Best(scores, init);
      if scores[last] > scores[b] {
        assert leaves[|leaves| - 1] == Best(scores, leaves);
        assert forall k :: 0 <= k < |init| ==> leaves[k] in init;
      } else {
        var i :| 0 <= i < |init| && init[i] == b && forall k :: 0 <= k < i ==> scores[init[k]] < scores[b];
        assert leaves[i] == b;
        assert forall k :: 0 <= k < i ==> leaves[k] == init[k];
      }
    }
  }

  /**
   The leaf chosen has the highest score, above every leaf listed earlier; with no keyword at all
   it is the first leaf, so the explicit fallback never changes the answer.
   */
  lemma RoutedIsBest(leaves: seq<string>, rules: seq<Rule>, text: string)
    requires leaves != []
    ensures var agent := Routed(leaves, rules, text);
            && agent in leaves
            && (forall a :: a in leaves ==> Score(rules, text, a) <= Score(rules, text, agent))
            && (exists i :: 0 <= i < |leaves| && leaves[i] == agent
                 && forall k :: 0 <= k < i ==> Score(rules, text, leaves[k]) < Score(rules, text, agent))
            && (Score(rules, text, agent) == 0 ==> agent == leaves[0])
  {
    var scores := Tally(leaves, rules, text);
    BestIsEarliestMaximum(scores, leaves);
    var agent := Best(scores, leaves);
    var i :| 0 <= i < |leaves| && leaves[i] == agent && forall k :: 0 <= k < i ==> scores[leaves[k]] < scores[agent];
    assert forall a :: a in leaves ==> scores[a] == Score(rules, text, a);
    assert forall k :: 0 <= k < |leaves| ==> leaves[k] in leaves;
    assert i > 0 ==> scores[leaves[0]] < scores[agent];
  }

  // ---------- the graph ----------

  datatype Kind = Human | Ai | Tool

  datatype Message = Message(kind: Kind, content: string, name: string)

  /** The domain's slot holds the counter; `rest` is the metadata the supervisor copies along. */
  datatype Metadata = Metadata(iterationCount: Option<int>, rest: map<string, string>)

  datatype State = State(messages: seq<Message>, current: string, next: Option<string>, metadata: Metadata)

  datatype Node = Entry | Leaf(agent: string) | End

  /** Where the run stands, and how often each kind of node has executed. */
  datatype Run = Run(node: Node, state: State, supervisorRuns: nat, leafRuns: nat)

  /** The supervisor's name, the leaves and rules, lower-casing, and each leaf's canned answer. */
  datatype Domain = Domain(
    supervisor: string, leaves: seq<string>, rules: seq<Rule>, lower: string -> string, answers: string -> string)
  {
    predicate Valid() {
      WellFormed(leaves, rules) && supervisor !in leaves
    }
  }

  function Iterations(s: State): int {
    s.metadata.iterationCount.GetOr(0)
  }

  /** The loop breaker: a leaf spoke last. */
  predicate Answered(d: Domain, s: State) {
    s.messages != [] && s.messages[|s.messages| - 1].kind == Ai && s.current != d.supervisor
  }

  /** The content of the last human message, if there is one. */
  function Request(messages: seq<Message>): string {
    if messages == [] then ""
    else if messages[|messages| - 1].kind == Human then messages[|messages| - 1].content
    else Request(messages[..|messages| - 1])
  }

  /** The leaf a run from `s` would call. */
  function Chosen(d: Domain, s: State): string
    requires d.Valid()
  {
    Routed(d.leaves, d.rules, d.lower(Request(s.messages)))
  }

  function Supervise(d: Domain, s: State): State
    requires d.Valid()
  {
    var metadata := s.metadata.(iterationCount := Some(Iterations(s) + 1));
    if Answered(d, s) then State(s.messages, d.supervisor, None, metadata)
    else State(s.messages, d.supervisor, Some(Chosen(d, s)), metadata)
  }

  function RunLeaf(d: Domain, agent: string, s: State): State {
    s.(messages := s.messages + [Message(Ai, d.answers(agent), agent)], current := agent)
  }

  /** The conditional edge out of the supervisor; an unknown name ends the run. */
  function Route(d: Domain, s: State): Node {
    if s.next.Some? && s.next.value in d.leaves then Leaf(s.next.value) else End
  }

  function Step(d: Domain, r: Run): Run
    requires d.Valid()
  {
    match r.node
    case Entry =>
      var s := Supervise(d, r.state);
      Run(Route(d, s), s, r.supervisorRuns + 1, r.leafRuns)
    case Leaf(agent) => Run(Entry, RunLeaf(d, agent, r.state), r.supervisorRuns, r.leafRuns + 1)
    case End => r
  }

  function Steps(d: Domain, s: State, n: nat): Run
    requires d.Valid()
  {
    if n == 0 then Run(Entry, s, 0, 0) else Step(d, Steps(d, s, n - 1))
  }

  /** What every point of a run keeps of its start. */
  predicate KeepsStart(d: Domain, s: State, r: Run)
    requires d.Valid()
  {
    && var answer := Message(Ai, d.answers(Chosen(d, s)), Chosen(d, s));
    && r.state.messages == s.messages + (if r.leafRuns == 0 then [] else [answer])
    && (if r.supervisorRuns == 0 then r.state.metadata == s.metadata
        else r.state.metadata == Metadata(Some(Iterations(s) + r.supervisorRuns), s.metadata.rest))
  }

  /** A run in closed form: straight to the end after an answer, otherwise one leaf and back. */
  function Stage(d: Domain, s: State, n: nat): Run
    requires d.Valid()
  {
    if n == 0 then Run(Entry, s, 0, 0)
    else if Answered(d, s) then Run(End, Supervise(d, s), 1, 0)
    else if n == 1 then Run(Leaf(Chosen(d, s)), Supervise(d, s), 1, 0)
    else if n == 2 then Run(Entry, RunLeaf(d, Chosen(d, s), Supervise(d, s)), 1, 1)
    else Run(End, Supervise(d, RunLeaf(d, Chosen(d, s), Supervise(d, s))), 2, 1)
  }

  lemma {:induction false} StepsAreStages(d: Domain, s: State, n: nat)
    requires d.Valid()
    ensures Steps(d, s, n) == Stage(d, s, n)
  {
    if n > 0 {
      StepsAreStages(d, s, n - 1);
      RoutedIsBest(d.leaves, d.rules, d.lower(Request(s.messages)));
      LeafAnswers(d, s);
    }
  }

  lemma LeafAnswers(d: Domain, s: State)
    requires d.Valid()
    ensures Answered(d, RunLeaf(d, Chosen(d, s), Supervise(d, s)))
  {
    RoutedIsBest(d.leaves, d.rules, d.lower(Request(s.messages)));
  }

  /**
   From any start state, every point of a run has executed at most three nodes, at most one of them
   a leaf -- the one the request routes to --, has left the earlier messages alone, added one
   message per leaf run and raised the counter by the number of supervisor visits.
   */
  lemma RunKeepsStart(d: Domain, s: State, n: nat)
    requires d.Valid()
    ensures Steps(d, s, n).supervisorRuns + Steps(d, s, n).leafRuns <= 3 && Steps(d, s, n).leafRuns <= 1
    ensures KeepsStart(d, s, Steps(d, s, n))
    ensures n >= 3 ==> Steps(d, s, n).node == End
  {
    StepsAreStages(d, s, n);
    LeafAnswers(d, s);
    assert s.messages + [] == s.messages;
  }

  /** The request is the content of the last human message, or empty. */
  lemma {:induction false} RequestIsLastHuman(messages: seq<Message>, k: nat)
    requires k <= |messages| && forall i :: k <= i < |messages| ==> messages[i].kind != Human
    requires k > 0 ==> messages[k - 1].kind == Human
    ensures Request(messages) == if k == 0 then "" else messages[k - 1].content
  {
    if k < |messages| {
      RequestIsLastHuman(messages[..|messages| - 1], k);
    }
  }

  /**
   The one message a run may add is the answer of the leaf that scores best on the lower-cased last
   human message; it is added unless the last message is an agent's and someone other than the
   supervisor acted last, and the counter starts from zero when there is none.
   */
  lemma RunAddsBestLeafsAnswer(d: Domain, s: State, k: nat)
    requires d.Valid() && k <= |s.messages| && forall i :: k <= i < |s.messages| ==> s.messages[i].kind != Human
    requires k > 0 ==> s.messages[k - 1].kind == Human
    ensures var end := Steps(d, s, 3).state;
            var text := d.lower(if k == 0 then "" else s.messages[k - 1].content);
            var before := if s.metadata.iterationCount.Some? then s.metadata.iterationCount.value else 0;
            if |s.messages| > 0 && s.messages[|s.messages| - 1].kind == Ai && s.current != d.supervisor then
              && end.messages == s.messages && end.metadata == Metadata(Some(before + 1), s.metadata.rest)
            else
              && |end.messages| == |s.messages| + 1 && s.messages <= end.messages
              && end.metadata == Metadata(Some(before + 2), s.metadata.rest)
              && var leaf := end.messages[|s.messages|].name;
              && end.messages[|s.messages|] == Message(Ai, d.answers(leaf), leaf)
              && leaf in d.leaves
              && (forall a :: a in d.leaves ==> |Hits(d.rules, text, a)| <= |Hits(d.rules, text, leaf)|)
  {
    StepsAreStages(d, s, 3);
    LeafAnswers(d, s);
    RequestIsLastHuman(s.messages, k);
    var text := d.lower(Request(s.messages));
    RoutedIsBest(d.leaves, d.rules, text);
    forall a | a in d.leaves ensures |Hits(d.rules, text, a)| <= |Hits(d.rules, text, Chosen(d, s))| {
      ScoreCountsHits(d.rules, text, a);
      ScoreCountsHits(d.rules, text, Chosen(d, s));
    }
  }

  /** A run ends with the supervisor holding no next agent, and called a leaf unless one had already answered. */
  lemma RunEnds(d: Domain, s: State, n: nat)
    requires d.Valid() && n >= 3
    ensures var r := Steps(d, s, n);
            && r == Steps(d, s, 3) && r.node == End
            && r.state.current == d.supervisor && r.state.next == None
            && r.leafRuns == (if Answered(d, s) then 0 else 1)
            && r.supervisorRuns == r.leafRuns + 1
  {
    StepsAreStages(d, s, n);
    StepsAreStages(d, s, 3);
    LeafAnswers(d, s);
  }

  lemma {:induction false} RequestSkipsAnswers(messages: seq<Message>, m: Message)
    requires m.kind != Human
    ensures Request(messages + [m]) == Request(messages)
  {
    assert (messages + [m])[..|messages|] == messages;
  }

  /**
   The breaker looks at who acted last, and a finished run leaves the supervisor there: running
   the graph again on its own result calls a leaf again, the very one the request routes to.
   */
  lemma SecondRunRepeatsLeaf(d: Domain, s: State)
    requires d.Valid()
    ensures var again := Steps(d, Steps(d, s, 3).state, 3);
            && again.leafRuns == 1
            && Chosen(d, Steps(d, s, 3).state) == Chosen(d, s)
            && |again.state.messages| == |s.messages| + (if Answered(d, s) then 1 else 2)
            && Iterations(again.state) == Iterations(s) + (if Answered(d, s) then 3 else 4)
  {
    var t := Steps(d, s, 3).state;
    RunEnds(d, s, 3);
    RunEnds(d, t, 3);
    RunKeepsStart(d, s, 3);
    RunKeepsStart(d, t, 3);
    RequestSkipsAnswers(s.messages, Message(Ai, d.answers(Chosen(d, s)), Chosen(d, s)));
    assert Request(t.messages) == Request(s.messages) by {
      assert s.messages + [] == s.messages;
    }
  }
}
