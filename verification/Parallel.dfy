/**
 The semaphore-bounded fan-out: every claim gets a worker, at most `maxWorkers` of them run at
 once, and the gathered results are listed in claim order.
 */
module Parallel {
  import opened Wrappers
  import opened Text

  // ---------- one worker's reply ----------

  datatype Label = SUPPORTS | REFUTES | NOT_ENOUGH_INFO

  const LABEL_MARK := "LABEL:"
  const REASON_MARK := "JUSTIFICACI\U{00D3}N:"

  /** `line.replace(mark, "")`. */
  function Erase(line: string, mark: string): string
    requires mark != ""
    decreases |line|
  {
    if line == "" then ""
    else if mark <= line then Erase(line[|mark|..], mark)
    else [line[0]] + Erase(line[1..], mark)
  }

  function Classify(line: string): Label {
    var rest := Erase(line, LABEL_MARK);
    if Contains(rest, "SUPPORTS") then SUPPORTS else if Contains(rest, "REFUTES") then REFUTES else NOT_ENOUGH_INFO
  }

  /** The last line starting with `mark`, counting from the end. */
  function LastMarked(lines: seq<string>, mark: string): Option<string> {
    if lines == [] then None
    else if StartsWith(lines[|lines| - 1], mark) then Some(lines[|lines| - 1])
    else LastMarked(lines[..|lines| - 1], mark)
  }

  /** The marked line found is the last one there is. */
  lemma {:induction false} LastMarkedIsLast(lines: seq<string>, mark: string)
    ensures var m := LastMarked(lines, mark);
            if m.None? then forall i :: 0 <= i < |lines| ==> !StartsWith(lines[i], mark)
            else exists i ::
              && 0 <= i < |lines| && lines[i] == m.value && StartsWith(lines[i], mark)
              && forall k :: i < k < |lines| ==> !StartsWith(lines[k], mark)
  {
    if lines != [] {
      var last := |lines| - 1;
      if !StartsWith(lines[last], mark) {
        LastMarkedIsLast(lines[..last], mark);
        assert forall i :: 0 <= i < last ==> lines[..last][i] == lines[i];
      }
    }
  }

  datatype Verdict = Verdict(predicted: Label, justification: string)

  /** The last label line decides, as does the last justification line; the raw reply stands in for a missing one. */
  function Parsed(strip: string -> string, raw: string, lines: seq<string>): Verdict {
    var decisive := LastMarked(lines, LABEL_MARK);
    var reason := LastMarked(lines, REASON_MARK);
    Verdict(if decisive.Some? then Classify(decisive.value) else NOT_ENOUGH_INFO,
            if reason.Some? then strip(Erase(reason.value, REASON_MARK)) else raw)
  }

  lemma {:induction false} EraseNothing(text: string, mark: string)
    requires mark != "" && !Contains(text, mark)
    ensures Erase(text, mark) == text
  {
    if text != "" {
      assert mark <= text ==> OccursAt(text, mark, 0);
      if Contains(text[1..], mark) {
        var i :| 0 <= i <= |text[1..]| && OccursAt(text[1..], mark, i);
        assert text[1..][i..i + |mark|] == text[i + 1..i + 1 + |mark|];
        assert OccursAt(text, mark, i + 1);
      }
      EraseNothing(text[1..], mark);
    }
  }

  lemma EraseMark(text: string, mark: string)
    requires mark != "" && !Contains(text, mark)
    ensures Erase(mark + text, mark) == text
  {
    assert (mark + text)[|mark|..] == text;
    EraseNothing(text, mark);
  }

  /**
   The verdict of a reply: from its last label line SUPPORTS if that word follows the mark, else
   REFUTES if that word does, else not enough information, as without any; the justification is
   what follows the mark on the last justification line, or else the raw reply.
   */
  lemma VerdictReadsLastLines(strip: string -> string, raw: string, lines: seq<string>, text: string)
    requires !Contains(text, LABEL_MARK)
    ensures LastMarked(lines, LABEL_MARK) == Some("LABEL:" + text) ==>
              Parsed(strip, raw, lines).predicted ==
                if Contains(text, "SUPPORTS") then SUPPORTS else if Contains(text, "REFUTES") then REFUTES
                else NOT_ENOUGH_INFO
    ensures LastMarked(lines, LABEL_MARK) == None ==> Parsed(strip, raw, lines).predicted == NOT_ENOUGH_INFO
    ensures LastMarked(lines, REASON_MARK) == Some(REASON_MARK + text) && !Contains(text, REASON_MARK) ==>
              Parsed(strip, raw, lines).justification == strip(text)
    ensures LastMarked(lines, REASON_MARK) == None ==> Parsed(strip, raw, lines).justification == raw
  {
    EraseMark(text, LABEL_MARK);
    if !Contains(text, REASON_MARK) {
      EraseMark(text, REASON_MARK);
    }
  }

  method ParseReply(strip: string -> string, raw: string, lines: seq<string>) returns (v: Verdict)
    ensures v == Parsed(strip, raw, lines)
  {
    var predicted, justification := NOT_ENOUGH_INFO, raw;
    for i := 0 to |lines|
      invariant Verdict(predicted, justification) == Parsed(strip, raw, lines[..i])
    {
      var line := lines[i];
      assert lines[..i + 1][..i] == lines[..i];
      if StartsWith(line, LABEL_MARK) {
        assert line[0] == LABEL_MARK[0] && LABEL_MARK[0] != REASON_MARK[0];
        predicted := Classify(line);
      } else if StartsWith(line, REASON_MARK) {
        justification := strip(Erase(line, REASON_MARK));
      }
    }
    assert lines[..|lines|] == lines;
    v := Verdict(predicted, justification);
  }

  // ---------- the fan-out as a step system ----------

  /** How a worker ends: a value, an exception, or a cancellation, which is no `Exception`. */
  datatype Outcome<R> = Value(result: R) | Raised(message: string) | Cancelled

  datatype Worker<R> = Waiting | Running | Finished(outcome: Outcome<R>)

  datatype System<R> = System(permits: int, workers: seq<Worker<R>>)

  datatype Move<R> = Start(worker: nat) | Finish(worker: nat, outcome: Outcome<R>)

  function Launch<R>(n: nat, maxWorkers: nat): System<R> {
    System(maxWorkers, seq(n, _ => Waiting))
  }

  predicate Enabled<R>(s: System<R>, m: Move<R>) {
    && m.worker < |s.workers|
    && (m.Start? ==> s.workers[m.worker].Waiting? && s.permits > 0)
    && (m.Finish? ==> s.workers[m.worker].Running?)
  }

  function Next<R>(s: System<R>, m: Move<R>): System<R>
    requires Enabled(s, m)
  {
    match m
    case Start(i) => System(s.permits - 1, s.workers[i := Running])
    case Finish(i, o) => System(s.permits + 1, s.workers[i := Finished(o)])
  }

  predicate Complete<R>(s: System<R>) {
    forall i :: 0 <= i < |s.workers| ==> s.workers[i].Finished?
  }

  /** A legal schedule from `s`. */
  predicate Legal<R>(s: System<R>, moves: seq<Move<R>>)
    decreases |moves|
  {
    moves == [] || (Enabled(s, moves[0]) && Legal(Next(s, moves[0]), moves[1..]))
  }

  function After<R>(s: System<R>, moves: seq<Move<R>>): System<R>
    requires Legal(s, moves)
    decreases |moves|
  {
    if moves == [] then s else After(Next(s, moves[0]), moves[1..])
  }

  function RunningCount<R>(workers: seq<Worker<R>>): nat {
    if workers == [] then 0 else (if workers[0].Running? then 1 else 0) + RunningCount(workers[1..])
  }

  /** Moves still to be made: two for a waiting worker, one for a running one. */
  function Remaining<R>(workers: seq<Worker<R>>): nat {
    if workers == [] then 0
    else (if workers[0].Waiting? then 2 else if workers[0].Running? then 1 else 0) + Remaining(workers[1..])
  }

  lemma {:induction false} CountsAfterUpdate<R>(workers: seq<Worker<R>>, i: nat, v: Worker<R>)
    requires i < |workers|
    ensures RunningCount(workers[i := v]) ==
            RunningCount(workers) - (if workers[i].Running? then 1 else 0) + if v.Running? then 1 else 0
    ensures Remaining(workers[i := v]) ==
            Remaining(workers) - (if workers[i].Waiting? then 2 else if workers[i].Running? then 1 else 0)
            + if v.Waiting? then 2 else if v.Running? then 1 else 0
  {
    if i == 0 {
      assert workers[0 := v][1..] == workers[1..];
    } else {
      CountsAfterUpdate(workers[1..], i - 1, v);
      assert workers[i := v][1..] == workers[1..][i - 1 := v];
    }
  }

  lemma {:induction false} LaunchCounts<R>(workers: seq<Worker<R>>)
    requires forall i :: 0 <= i < |workers| ==> workers[i].Waiting?
    ensures RunningCount(workers) == 0 && Remaining(workers) == 2 * |workers|
  {
    if workers != [] {
      LaunchCounts(workers[1..]);
    }
  }

  predicate Balanced<R>(maxWorkers: nat, s: System<R>) {
    s.permits >= 0 && s.permits + RunningCount(s.workers) == maxWorkers
  }

  lemma StepKeeps<R>(maxWorkers: nat, s: System<R>, m: Move<R>)
    requires Balanced(maxWorkers, s) && Enabled(s, m)
    ensures Balanced(maxWorkers, Next(s, m))
    ensures |Next(s, m).workers| == |s.workers|
    ensures Remaining(Next(s, m).workers) == Remaining(s.workers) - 1
  {
    CountsAfterUpdate(s.workers, m.worker, Next(s, m).workers[m.worker]);
  }

  lemma {:induction false} ScheduleKeeps<R>(maxWorkers: nat, s: System<R>, moves: seq<Move<R>>)
    requires Balanced(maxWorkers, s) && Legal(s, moves)
    ensures var t := After(s, moves);
            && Balanced(maxWorkers, t) && |t.workers| == |s.workers|
            && Remaining(t.workers) == Remaining(s.workers) - |moves|
    decreases |moves|
  {
    if moves != [] {
      StepKeeps(maxWorkers, s, moves[0]);
      ScheduleKeeps(maxWorkers, Next(s, moves[0]), moves[1..]);
    }
  }

  lemma {:induction false} CompleteMeansNoneRemaining<R>(workers: seq<Worker<R>>)
    ensures Remaining(workers) == 0 <==> forall i :: 0 <= i < |workers| ==> workers[i].Finished?
  {
    if workers != [] {
      CompleteMeansNoneRemaining(workers[1..]);
      assert (forall i :: 0 <= i < |workers| ==> workers[i].Finished?) <==>
             workers[0].Finished? && forall i :: 0 <= i < |workers| - 1 ==> workers[1..][i].Finished? by {
        assert forall i :: 0 < i < |workers| ==> workers[i] == workers[1..][i - 1];
      }
    }
  }

  lemma {:induction false} SomeRunning<R>(workers: seq<Worker<R>>)
    requires RunningCount(workers) > 0
    ensures exists i :: 0 <= i < |workers| && workers[i].Running?
  {
    if !workers[0].Running? {
      SomeRunning(workers[1..]);
      var i :| 0 <= i < |workers| - 1 && workers[1..][i].Running?;
      assert workers[i + 1].Running?;
    }
  }

  /**
   For every schedule: permits and running workers always add up to the cap, so no more than
   `maxWorkers` ever run; the run is complete exactly after two moves a claim.
   */
  lemma ScheduleIsBounded<R>(n: nat, maxWorkers: nat, moves: seq<Move<R>>)
    requires Legal(Launch<R>(n, maxWorkers), moves)
    ensures var t := After(Launch<R>(n, maxWorkers), moves);
            && t.permits >= 0 && t.permits + RunningCount(t.workers) == maxWorkers
            && |t.workers| == n && |moves| <= 2 * n
            && (Complete(t) <==> |moves| == 2 * n)
  {
    var s := Launch<R>(n, maxWorkers);
    LaunchCounts(s.workers);
    ScheduleKeeps(maxWorkers, s, moves);
    CompleteMeansNoneRemaining(After(s, moves).workers);
  }

  /** The schedule leads to an unfinished state from which nothing can move. */
  ghost predicate GetsStuck<R(!new)>(s: System<R>, moves: seq<Move<R>>) {
    Legal(s, moves) && !Complete(After(s, moves)) && forall m: Move<R> :: !Enabled(After(s, moves), m)
  }

  /** Some reachable unfinished state is stuck exactly when the cap is zero and there is work to do. */
  lemma StuckOnlyWithoutPermits<R(0,!new)>(n: nat, maxWorkers: nat)
    ensures (exists moves: seq<Move<R>> :: GetsStuck(Launch<R>(n, maxWorkers), moves)) <==> maxWorkers == 0 && n > 0
  {
    var s := Launch<R>(n, maxWorkers);
    if maxWorkers == 0 && n > 0 {
      assert Legal(s, []) && After(s, []) == s && !s.workers[0].Finished?;
      assert GetsStuck(s, []);
    } else {
      forall moves: seq<Move<R>> | Legal(s, moves) && !Complete(After(s, moves))
        ensures !GetsStuck(s, moves)
      {
        ScheduleIsBounded(n, maxWorkers, moves);
        HasMove(After(s, moves), maxWorkers);
      }
    }
  }

  lemma HasMove<R(0,!new)>(s: System<R>, maxWorkers: nat)
    requires Balanced(maxWorkers, s) && !Complete(s) && maxWorkers > 0
    ensures exists m: Move<R> :: Enabled(s, m)
  {
    if RunningCount(s.workers) > 0 {
      SomeRunning(s.workers);
      var i :| 0 <= i < |s.workers| && s.workers[i].Running?;
      assert Enabled(s, Finish(i, Cancelled));
    } else {
      var i :| 0 <= i < |s.workers| && !s.workers[i].Finished?;
      if s.workers[i].Running? {
        assert Enabled(s, Finish(i, Cancelled));
      } else {
        assert Enabled(s, Start(i));
      }
    }
  }

  // ---------- fan-in ----------

  datatype Slot<R> = Checked(result: R) | Failure(claimId: string, message: string) | Escaped

  /** What each slot of the returned list holds. */
  function SlotFor<R>(claimId: string, o: Outcome<R>): Slot<R> {
    match o
    case Value(r) => Checked(r)
    case Raised(e) => Failure(claimId, e)
    case Cancelled => Escaped
  }

  function Gathered<R>(s: System<R>): (outcomes: seq<Outcome<R>>)
    requires Complete(s)
  {
    seq(|s.workers|, i requires 0 <= i < |s.workers| => s.workers[i].outcome)
  }

  method FanIn<R>(claimIds: seq<string>, outcomes: seq<Outcome<R>>) returns (results: seq<Slot<R>>)
    requires |claimIds| == |outcomes|
    ensures |results| == |outcomes|
    ensures forall i :: 0 <= i < |outcomes| ==> results[i] == SlotFor(claimIds[i], outcomes[i])
  {
    results := [];
    for i := 0 to |outcomes|
      invariant |results| == i
      invariant forall k :: 0 <= k < i ==> results[k] == SlotFor(claimIds[k], outcomes[k])
    {
      match outcomes[i] {
        case Raised(e) => results := results + [Failure(claimIds[i], e)];
        case Value(r) => results := results + [Checked(r)];
        case Cancelled => results := results + [Escaped];
      }
    }
  }

  /** The outcome a schedule gives worker `i`, if it finishes it. */
  function OutcomeOf<R>(moves: seq<Move<R>>, i: nat): Option<Outcome<R>> {
    if moves == [] then None
    else if moves[0].Finish? && moves[0].worker == i then Some(moves[0].outcome)
    else OutcomeOf(moves[1..], i)
  }

  lemma {:induction false} FinishedStays<R>(s: System<R>, moves: seq<Move<R>>, i: nat)
    requires Legal(s, moves) && i < |s.workers|
    ensures |After(s, moves).workers| == |s.workers|
    ensures s.workers[i].Finished? ==> After(s, moves).workers[i] == s.workers[i]
    decreases |moves|
  {
    if moves != [] {
      FinishedStays(Next(s, moves[0]), moves[1..], i);
    }
  }

  /** A worker's final outcome is the one its own finishing move carries. */
  lemma {:induction false} OutcomeIsRecorded<R>(s: System<R>, moves: seq<Move<R>>, i: nat)
    requires Legal(s, moves) && i < |s.workers| && !s.workers[i].Finished?
    ensures |After(s, moves).workers| == |s.workers|
    ensures var v := After(s, moves).workers[i];
            if v.Finished? then OutcomeOf(moves, i) == Some(v.outcome) else OutcomeOf(moves, i) == None
    decreases |moves|
  {
    if moves != [] {
      var t := Next(s, moves[0]);
      if t.workers[i].Finished? {
        FinishedStays(t, moves[1..], i);
      } else {
        OutcomeIsRecorded(t, moves[1..], i);
      }
    }
  }

  /**
   Schedules do not matter: two complete runs, under whatever caps, in which each worker ends the
   same way gather the same list; and slot `i` of that list is worker `i`'s own outcome.
   */
  lemma ScheduleIndependence<R>(n: nat, capA: nat, capB: nat, a: seq<Move<R>>, b: seq<Move<R>>)
    requires Legal(Launch<R>(n, capA), a) && Legal(Launch<R>(n, capB), b)
    requires Complete(After(Launch<R>(n, capA), a)) && Complete(After(Launch<R>(n, capB), b))
    requires forall i: nat :: i < n ==> OutcomeOf(a, i) == OutcomeOf(b, i)
    ensures Gathered(After(Launch<R>(n, capA), a)) == Gathered(After(Launch<R>(n, capB), b))
    ensures |Gathered(After(Launch<R>(n, capA), a))| == n
    ensures forall i: nat :: i < n ==> OutcomeOf(a, i) == Some(Gathered(After(Launch<R>(n, capA), a))[i])
  {
    ScheduleIsBounded(n, capA, a);
    ScheduleIsBounded(n, capB, b);
    forall i: nat | i < n
      ensures OutcomeOf(a, i) == Some(Gathered(After(Launch<R>(n, capA), a))[i])
      ensures OutcomeOf(b, i) == Some(Gathered(After(Launch<R>(n, capB), b))[i])
    {
      OutcomeIsRecorded(Launch<R>(n, capA), a, i);
      OutcomeIsRecorded(Launch<R>(n, capB), b, i);
    }
  }

  /** A cancelled worker leaves no error record. */
  lemma CancelledEscapes(claimId: string)
    ensures var moves := [Start(0), Finish(0, Cancelled)];
            && Legal(Launch<string>(1, 1), moves) && Complete(After(Launch<string>(1, 1), moves))
            && SlotFor(claimId, Gathered(After(Launch<string>(1, 1), moves))[0]) == Escaped
  {
    var s := Launch<string>(1, 1);
    var moves: seq<Move<string>> := [Start(0), Finish(0, Cancelled)];
    assert moves[1..] == [Finish(0, Cancelled)] && moves[1..][1..] == [];
    assert Next(s, moves[0]).workers[0].Running?;
    assert After(s, moves) == Next(Next(s, moves[0]), moves[1]);
  }

  /**
   The whole call under an arbitrary scheduler: it ends, after a complete schedule, with one slot a
   claim in claim order -- a result, or the error record carrying that claim's id.
   */
  method RunParallelVerification<R(0,!new)>(claimIds: seq<string>, maxWorkers: nat, pick: System<R> -> Move<R>)
    returns (results: seq<Slot<R>>, ghost moves: seq<Move<R>>)
    requires maxWorkers > 0 || claimIds == []
    requires forall s: System<R> :: (exists m: Move<R> :: Enabled(s, m)) ==> Enabled(s, pick(s))
    ensures Legal(Launch<R>(|claimIds|, maxWorkers), moves) && |moves| == 2 * |claimIds|
    ensures |results| == |claimIds|
    ensures forall i :: 0 <= i < |claimIds| ==>
              && OutcomeOf(moves, i).Some?
              && match OutcomeOf(moves, i).value {
                   case Value(r) => results[i] == Checked(r)
                   case Raised(e) => results[i] == Failure(claimIds[i], e)
                   case Cancelled => results[i] == Escaped
                 }
    ensures (forall i :: 0 <= i < |claimIds| ==> !results[i].Escaped?)
       <==> forall i :: 0 <= i < |claimIds| ==> OutcomeOf(moves, i) != Some(Cancelled)
  {
    var n := |claimIds|;
    var s := Launch<R>(n, maxWorkers);
    moves := [];
    LaunchCounts(s.workers);
    var left := 2 * n;
    while left > 0
      invariant Legal(Launch<R>(n, maxWorkers), moves) && After(Launch<R>(n, maxWorkers), moves) == s
      invariant |moves| + left == 2 * n
    {
      ScheduleIsBounded(n, maxWorkers, moves);
      HasMove(s, maxWorkers);
      var m := pick(s);
      Extend(Launch<R>(n, maxWorkers), moves, m);
      moves := moves + [m];
      s := Next(s, m);
      left := left - 1;
    }
    ScheduleIsBounded(n, maxWorkers, moves);
    results := FanIn(claimIds, Gathered(s));
    forall i: nat | i < n
      ensures OutcomeOf(moves, i) == Some(Gathered(s)[i])
    {
      OutcomeIsRecorded(Launch<R>(n, maxWorkers), moves, i);
    }
  }

  lemma {:induction false} Extend<R>(s: System<R>, moves: seq<Move<R>>, m: Move<R>)
    requires Legal(s, moves) && Enabled(After(s, moves), m)
    ensures Legal(s, moves + [m]) && After(s, moves + [m]) == Next(After(s, moves), m)
    decreases |moves|
  {
    if moves == [] {
      assert [] + [m] == [m];
      assert [m][1..] == [];
    } else {
      Extend(Next(s, moves[0]), moves[1..], m);
      assert (moves + [m])[1..] == moves[1..] + [m];
    }
  }
}
