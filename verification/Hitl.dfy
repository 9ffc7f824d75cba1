/** The human-approval loop: draft, assess, interrupt, decide, revise. */
module Hitl {
  import opened Wrappers

  datatype Proposal = Proposal(
    id: string, title: string, description: string, riskLevel: string, riskReasons: seq<string>,
    expectedImpact: string, rollbackPlan: string)

  type Changes = map<string, string>

  datatype Action = Approve | Reject | RequestChanges | Other(text: string)

  datatype Decision = Decision(action: Action, changes: Changes)

  datatype Artifact = Artifact(
    id: string, title: string, description: string, expectedImpact: string, rollbackPlan: string,
    riskReasons: seq<string>)

  datatype Interrupt = Interrupt(artifact: Artifact, riskLevel: string, proposal: Proposal, iteration: nat)

  datatype Verdict = Approved | Rejected | MaxIterations

  /** A call of the finalizer. */
  datatype Deployment = Deployment(proposal: Proposal, changes: Changes)

  datatype Outcome = Outcome(verdict: Verdict, shown: seq<Interrupt>, deployed: seq<Deployment>)

  function Get(changes: Changes, key: string, default: string): string {
    if key in changes then changes[key] else default
  }

  function Draft(p: Proposal): Artifact {
    Artifact(p.id, p.title, p.description, p.expectedImpact, p.rollbackPlan, p.riskReasons)
  }

  predicate NeedsHuman(p: Proposal) {
    p.riskLevel == "HIGH" || p.riskLevel == "MEDIUM"
  }

  function Revise(p: Proposal, changes: Changes): Proposal {
    Proposal(p.id, Get(changes, "title", p.title), Get(changes, "description", p.description),
             p.riskLevel, p.riskReasons,
             Get(changes, "expected_impact", p.expectedImpact), Get(changes, "rollback_plan", p.rollbackPlan))
  }

  function Ask(p: Proposal, iteration: nat): Interrupt {
    Interrupt(Draft(p), p.riskLevel, p, iteration)
  }

  // ---------- the review as a function of the decisions ----------

  /** The proposal put to the k-th interrupt: the original with the first k change requests folded in. */
  function Revised(p: Proposal, decide: Interrupt -> Decision, k: nat): Proposal
    decreases k, 0
  {
    if k == 0 then p else Revise(Revised(p, decide, k - 1), DecisionAt(p, decide, k - 1).changes)
  }

  function InterruptAt(p: Proposal, decide: Interrupt -> Decision, k: nat): Interrupt
    decreases k, 1
  {
    Ask(Revised(p, decide, k), k)
  }

  function DecisionAt(p: Proposal, decide: Interrupt -> Decision, k: nat): Decision
    decreases k, 2
  {
    decide(InterruptAt(p, decide, k))
  }

  /** The first of the next consultations, up to `n`, that is not a change request. */
  function FirstRuling(p: Proposal, decide: Interrupt -> Decision, from: nat, n: nat): (k: nat)
    requires from <= n
    ensures from <= k <= n
    ensures forall i :: from <= i < k ==> DecisionAt(p, decide, i).action == RequestChanges
    ensures k < n ==> DecisionAt(p, decide, k).action != RequestChanges
    decreases n - from
  {
    if from == n || DecisionAt(p, decide, from).action != RequestChanges then from
    else FirstRuling(p, decide, from + 1, n)
  }

  function Interrupts(p: Proposal, decide: Interrupt -> Decision, k: nat): seq<Interrupt> {
    seq(k, i requires 0 <= i < k => InterruptAt(p, decide, i))
  }

  /** Every decision that gets consulted is one of the three actions. */
  predicate Rules(p: Proposal, decide: Interrupt -> Decision, bypass: bool, n: nat) {
    bypass || !NeedsHuman(p) ||
    var k := FirstRuling(p, decide, 0, n);
    k < n ==> !DecisionAt(p, decide, k).action.Other?
  }

  function Review(p: Proposal, decide: Interrupt -> Decision, bypass: bool, n: nat): Outcome
    requires n >= 1 && Rules(p, decide, bypass, n)
  {
    if bypass || !NeedsHuman(p) then Outcome(Approved, [], [Deployment(p, map[])])
    else
      var k := FirstRuling(p, decide, 0, n);
      if k == n then Outcome(MaxIterations, Interrupts(p, decide, n), [])
      else
        var d := DecisionAt(p, decide, k);
        if d.action == Approve
        then Outcome(Approved, Interrupts(p, decide, k + 1), [Deployment(Revised(p, decide, k), d.changes)])
        else Outcome(Rejected, Interrupts(p, decide, k + 1), [])
  }

  method RunHitlPipeline(p: Proposal, decide: Interrupt -> Decision, bypass: bool, n: nat) returns (out: Outcome)
    requires n >= 1 && Rules(p, decide, bypass, n)
    ensures out == Review(p, decide, bypass, n)
  {
    var iteration, current := 0, p;
    var shown: seq<Interrupt> := [];
    while iteration < n
      invariant iteration < n && current == Revised(p, decide, iteration)
      invariant shown == Interrupts(p, decide, iteration)
      invariant iteration > 0 ==> !bypass && NeedsHuman(p)
      invariant NeedsHuman(current) == NeedsHuman(p)
      invariant FirstRuling(p, decide, 0, n) == FirstRuling(p, decide, iteration, n)
    {
      if bypass || !NeedsHuman(current) {
        return Outcome(Approved, shown, [Deployment(current, map[])]);
      }
      var interrupt := Ask(current, iteration);
      var decision := decide(interrupt);
      assert decision == DecisionAt(p, decide, iteration);
      shown := shown + [interrupt];
      if decision.action == Approve {
        return Outcome(Approved, shown, [Deployment(current, decision.changes)]);
      }
      if decision.action == Reject {
        return Outcome(Rejected, shown, []);
      }
      if decision.action == RequestChanges {
        current := Revise(current, decision.changes);
        iteration := iteration + 1;
        if iteration >= n {
          return Outcome(MaxIterations, shown, []);
        }
        continue;
      }
      assert false;
    }
    return Outcome(MaxIterations, shown, []);
  }

  // ---------- what a review guarantees ----------

  lemma {:induction false} RevisedKeepsIdentity(p: Proposal, decide: Interrupt -> Decision, k: nat)
    ensures var q := Revised(p, decide, k);
            q.id == p.id && q.riskLevel == p.riskLevel && q.riskReasons == p.riskReasons
  {
    if k > 0 {
      RevisedKeepsIdentity(p, decide, k - 1);
    }
  }

  /** The last value given to `key` by the first `k` change requests, or the original one. */
  function LastChange(p: Proposal, decide: Interrupt -> Decision, k: nat, key: string, original: string): string {
    if k == 0 then original
    else if key in DecisionAt(p, decide, k - 1).changes then DecisionAt(p, decide, k - 1).changes[key]
    else LastChange(p, decide, k - 1, key, original)
  }

  /**
   What the k-th interrupt shows: identity, risk level and reasons of the original, and each
   editable field as the latest change request to name it left it.
   */
  lemma {:induction false} ShownArtifact(p: Proposal, decide: Interrupt -> Decision, k: nat)
    ensures InterruptAt(p, decide, k).artifact == Artifact(
              p.id,
              LastChange(p, decide, k, "title", p.title),
              LastChange(p, decide, k, "description", p.description),
              LastChange(p, decide, k, "expected_impact", p.expectedImpact),
              LastChange(p, decide, k, "rollback_plan", p.rollbackPlan),
              p.riskReasons)
    ensures InterruptAt(p, decide, k).riskLevel == p.riskLevel
  {
    if k > 0 {
      ShownArtifact(p, decide, k - 1);
    }
  }

  /**
   For any cap and any decisions among the three actions: at most `n` consultations, each shown
   once in order; the first approval or rejection among them decides, `n` change requests give up,
   and bypass or low risk approves without asking.
   */
  lemma ReviewFollowsDecisions(p: Proposal, decide: Interrupt -> Decision, bypass: bool, n: nat)
    requires n >= 1 && Rules(p, decide, bypass, n)
    ensures var out := Review(p, decide, bypass, n);
            && |out.shown| <= n
            && (forall k :: 0 <= k < |out.shown| ==>
                 out.shown[k] == InterruptAt(p, decide, k) && out.shown[k].iteration == k)
            && (out.shown == [] <==> bypass || !NeedsHuman(p))
            && (out.shown == [] ==> out.verdict == Approved)
            && (forall k :: 0 <= k < |out.shown| - 1 ==> DecisionAt(p, decide, k).action == RequestChanges)
            && (out.shown != [] ==>
                 match DecisionAt(p, decide, |out.shown| - 1).action
                 case Approve => out.verdict == Approved
                 case Reject => out.verdict == Rejected
                 case _ => out.verdict == MaxIterations && |out.shown| == n)
  {
  }

  /**
   Without bypass, high and medium risk are put to the reviewer, and nothing is deployed that was
   not approved at the last interrupt; any other level, and any bypass, deploys the original
   unasked.
   */
  lemma RiskDecidesWhoIsAsked(p: Proposal, decide: Interrupt -> Decision, bypass: bool, n: nat)
    requires n >= 1 && Rules(p, decide, bypass, n)
    ensures var out := Review(p, decide, bypass, n);
            if !bypass && (p.riskLevel == "HIGH" || p.riskLevel == "MEDIUM") then
              && out.shown != [] && out.shown[0] == InterruptAt(p, decide, 0)
              && (out.deployed != [] ==> decide(out.shown[|out.shown| - 1]).action == Approve)
            else out == Outcome(Approved, [], [Deployment(p, map[])])
  {
  }

  /** The finalizer runs once on approval and never otherwise, on the proposal whose artifact was shown last. */
  lemma DeployedOnceIfApproved(p: Proposal, decide: Interrupt -> Decision, bypass: bool, n: nat)
    requires n >= 1 && Rules(p, decide, bypass, n)
    ensures var out := Review(p, decide, bypass, n);
            && (|out.deployed| == if out.verdict == Approved then 1 else 0)
            && (out.deployed != [] ==>
                 if out.shown == [] then out.deployed[0] == Deployment(p, map[])
                 else
                   var last := out.shown[|out.shown| - 1];
                   && out.deployed[0].proposal == last.proposal && Draft(last.proposal) == last.artifact
                   && out.deployed[0].changes == decide(last).changes
                   && out.deployed[0].proposal.id == p.id)
  {
    if !bypass && NeedsHuman(p) {
      RevisedKeepsIdentity(p, decide, FirstRuling(p, decide, 0, n));
    }
  }

  /** A predefined script: past its end, the last decision repeats. */
  function Scripted(script: seq<Decision>): Interrupt -> Decision
    requires script != []
  {
    (it: Interrupt) => script[if it.iteration < |script| then it.iteration else |script| - 1]
  }

  lemma ScriptedAt(p: Proposal, script: seq<Decision>, i: nat)
    requires script != []
    ensures DecisionAt(p, Scripted(script), i) == script[if i < |script| then i else |script| - 1]
  {
  }

  /**
   Under a script the verdict is read off its text: the first entry that is not a change request,
   if it comes within the cap; otherwise the cap is reached.
   */
  lemma ScriptDecides(p: Proposal, script: seq<Decision>, n: nat, k: nat)
    requires script != [] && n >= 1 && NeedsHuman(p) && k <= |script|
    requires forall i :: 0 <= i < k ==> script[i].action == RequestChanges
    requires k < |script| ==> script[k].action == Approve || script[k].action == Reject
    ensures Rules(p, Scripted(script), false, n)
    ensures var out := Review(p, Scripted(script), false, n);
            out.verdict == if k < |script| && k < n then (if script[k].action == Approve then Approved else Rejected)
                           else MaxIterations
  {
    var r := FirstRuling(p, Scripted(script), 0, n);
    ScriptedAt(p, script, r);
    ScriptedAt(p, script, k);
  }

  // ---------- termination ----------

  /** The loop's variables between turns; a finished loop has a verdict. */
  datatype Loop = Loop(iteration: nat, current: Proposal, verdict: Option<Verdict>)

  /** One turn. An action outside the three changes nothing, so the same question is put again. */
  function Turn(l: Loop, decide: Interrupt -> Decision, bypass: bool, n: nat): Loop {
    if l.verdict.Some? then l
    else if l.iteration >= n then l.(verdict := Some(MaxIterations))
    else if bypass || !NeedsHuman(l.current) then l.(verdict := Some(Approved))
    else
      var d := decide(Ask(l.current, l.iteration));
      match d.action
      case Approve => l.(verdict := Some(Approved))
      case Reject => l.(verdict := Some(Rejected))
      case RequestChanges =>
        Loop(l.iteration + 1, Revise(l.current, d.changes), if l.iteration + 1 >= n then Some(MaxIterations) else None)
      case Other(_) => l
  }

  function Turns(l: Loop, decide: Interrupt -> Decision, bypass: bool, n: nat, count: nat): Loop {
    if count == 0 then l else Turn(Turns(l, decide, bypass, n, count - 1), decide, bypass, n)
  }

  lemma {:induction false} TurnsRevise(p: Proposal, decide: Interrupt -> Decision, n: nat, count: nat)
    requires n >= 1 && NeedsHuman(p)
    ensures var (k, l) := (FirstRuling(p, decide, 0, n), Turns(Loop(0, p, None), decide, false, n, count));
            && (count <= k ==>
                 l == Loop(count, Revised(p, decide, count), if count == n then Some(MaxIterations) else None))
            && (k < count ==>
                 if k == n then l.verdict == Some(MaxIterations)
                 else l == Loop(k, Revised(p, decide, k),
                                match DecisionAt(p, decide, k).action
                                case Approve => Some(Approved)
                                case Reject => Some(Rejected)
                                case _ => None))
  {
    if count > 0 {
      TurnsRevise(p, decide, n, count - 1);
      assert DecisionAt(p, decide, count - 1) == decide(Ask(Revised(p, decide, count - 1), count - 1));
      RevisedKeepsIdentity(p, decide, count - 1);
      RevisedKeepsIdentity(p, decide, FirstRuling(p, decide, 0, n));
    }
  }

  /**
   The loop ends exactly when every decision it consults is one of the three actions -- and then
   with the review's verdict; otherwise it puts the same question for ever.
   */
  lemma LoopEndsIffRuled(p: Proposal, decide: Interrupt -> Decision, bypass: bool, n: nat)
    requires n >= 1
    ensures (exists count: nat :: Turns(Loop(0, p, None), decide, bypass, n, count).verdict.Some?)
       <==> Rules(p, decide, bypass, n)
    ensures Rules(p, decide, bypass, n) ==>
              Turns(Loop(0, p, None), decide, bypass, n, n + 1).verdict == Some(Review(p, decide, bypass, n).verdict)
  {
    if bypass || !NeedsHuman(p) {
      var l := Loop(0, p, None);
      assert Turns(l, decide, bypass, n, 1) == Turn(Turns(l, decide, bypass, n, 0), decide, bypass, n);
      TurnsSettled(l, decide, bypass, n, n);
    } else {
      TurnsRevise(p, decide, n, n + 1);
      forall count: nat
        ensures Turns(Loop(0, p, None), decide, bypass, n, count).verdict.Some? ==> Rules(p, decide, bypass, n)
      {
        TurnsRevise(p, decide, n, count);
      }
    }
  }

  /** A reviewer who answers anything else is asked the first question for ever. */
  lemma {:induction false} OtherAsksForEver(p: Proposal, text: string, n: nat, count: nat)
    requires n >= 1 && NeedsHuman(p)
    ensures Turns(Loop(0, p, None), _ => Decision(Other(text), map[]), false, n, count) == Loop(0, p, None)
  {
    if count > 0 {
      OtherAsksForEver(p, text, n, count - 1);
    }
  }

  lemma {:induction false} TurnsSettled(l: Loop, decide: Interrupt -> Decision, bypass: bool, n: nat, more: nat)
    requires Turns(l, decide, bypass, n, 1).verdict.Some?
    ensures Turns(l, decide, bypass, n, 1 + more) == Turns(l, decide, bypass, n, 1)
  {
    if more > 0 {
      TurnsSettled(l, decide, bypass, n, more - 1);
    }
  }
}
