/** What an agent node makes of a delegated turn: the state update and the audit trail. */
module NodeSpec {
  import opened Wrappers
  import opened Json
  import opened Streams
  import opened ClientSpec
  import opened Negotiation
  import Urls

  /** How a delegation went: the artifacts received, and what it failed with, if it did. */
  datatype Delegation = Delegation(artifacts: seq<Artifact>, failure: Option<Error>)

  /** The message put into the state: the error note, or the remote answer. */
  datatype Note = ErrorNote(text: string) | Answer(text: string)

  datatype Update = Update(note: Note, error: bool, artifacts: Option<nat>)

  /** `str()` of a JSON value, and of any failure that quotes no JSON-RPC error of the peer's. */
  datatype Wording = Wording(show: Json -> string, other: Error -> string)

  /** Audit events carry identifiers and counts, never content. */
  datatype AuditEvent = FailedEvent(skill: Option<string>) | CompletedEvent(skill: Option<string>, artifacts: nat)

  /** The text of the error note. */
  function Told(words: Wording, e: Error): string {
    "[a2a] remote agent unavailable: " +
    if e.Unavailable? && e.reason.StreamRefused?
    then "A2A agent 'remote' unavailable: jsonrpc error: " + words.show(e.reason.error)
    else words.other(e)
  }

  function PartTexts(parts: seq<Part>): seq<string> {
    if parts == [] then []
    else (if parts[0].kind == TextPart && parts[0].text.GetOr("") != "" then [parts[0].text.value] else [])
         + PartTexts(parts[1..])
  }

  /** Every non-empty text part of the stream, in stream order. */
  function Texts(artifacts: seq<Artifact>): seq<string> {
    if artifacts == [] then [] else PartTexts(artifacts[0].parts) + Texts(artifacts[1..])
  }

  function JoinLines(texts: seq<string>): string {
    if texts == [] then "" else if |texts| == 1 then texts[0] else texts[0] + "\n" + JoinLines(texts[1..])
  }

  /** The text of the last message that has any, whoever wrote it. */
  function LastText(contents: seq<Option<string>>): string {
    if contents == [] then ""
    else
      var last := contents[|contents| - 1];
      if last.GetOr("") != "" then last.value else LastText(contents[..|contents| - 1])
  }

  function UserMessage(prompt: string): Json {
    Obj(map["role" := Str("user"), "parts" := Arr([Obj(map["kind" := Str("text"), "text" := Str(prompt)])])])
  }

  /** The answer, or nothing when the sanitizer itself raises. */
  function Sanitized(sanitize: string -> Option<string>, artifacts: seq<Artifact>): Option<string> {
    if Texts(artifacts) == [] then Some("") else sanitize(JoinLines(Texts(artifacts)))
  }

  function Outcome(words: Wording, sanitize: string -> Option<string>, d: Delegation): Option<Update> {
    if d.failure.Some? then Some(Update(ErrorNote(Told(words, d.failure.value)), true, None))
    else
      var text := Sanitized(sanitize, d.artifacts);
      if text.None? then None else Some(Update(Answer(text.value), false, Some(|d.artifacts|)))
  }

  function Audited(sanitize: string -> Option<string>, skill: Option<string>, d: Delegation): seq<AuditEvent> {
    if d.failure.Some? then [FailedEvent(skill)]
    else if Sanitized(sanitize, d.artifacts).None? then []
    else [CompletedEvent(skill, |d.artifacts|)]
  }

  // ---------- what the node guarantees ----------

  /**
   One audit event per call, agreeing with the update on success, failure and count -- unless the
   stream succeeded with some text and the sanitizer raised, when there is neither event nor update.
   */
  lemma AuditedOnce(words: Wording, sanitize: string -> Option<string>, skill: Option<string>, d: Delegation)
    ensures var (audit, out) := (Audited(sanitize, skill, d), Outcome(words, sanitize, d));
            && (|audit| == 1 <==> out.Some?) && |audit| <= 1
            && (out.None? <==>
                 d.failure.None? && Texts(d.artifacts) != [] && sanitize(JoinLines(Texts(d.artifacts))).None?)
            && (out.Some? ==> (out.value.error <==> d.failure.Some?) && (out.value.error <==> audit[0].FailedEvent?))
            && (out.Some? && !out.value.error ==>
                 out.value.artifacts == Some(|d.artifacts|) && audit[0].artifacts == |d.artifacts|)
  {
  }

  /**
   The answer of a successful turn is the sanitizer's reading of all the texts on lines of their
   own, or empty when there is none; events carry the node's skill.
   */
  lemma AnswerIsSanitized(words: Wording, sanitize: string -> Option<string>, skill: Option<string>, d: Delegation)
    ensures d.failure.None? ==>
              Outcome(words, sanitize, d) ==
                if Texts(d.artifacts) == [] then Some(Update(Answer(""), false, Some(|d.artifacts|)))
                else match sanitize(JoinLines(Texts(d.artifacts))) {
                  case Some(text) => Some(Update(Answer(text), false, Some(|d.artifacts|)))
                  case None => None
                }
    ensures forall e :: e in Audited(sanitize, skill, d) ==> e.skill == skill
  {
  }

  /** Lines are joined in order, one newline between any two. */
  lemma {:induction false} JoinLinesConcat(a: seq<string>, b: seq<string>)
    ensures JoinLines([]) == "" && forall t :: JoinLines([t]) == t
    ensures a != [] && b != [] ==> JoinLines(a + b) == JoinLines(a) + "\n" + JoinLines(b)
  {
    if |a| == 1 {
      assert (a + b)[1..] == b;
    } else if a != [] && b != [] {
      JoinLinesConcat(a[1..], b);
      assert (a + b)[0] == a[0] && (a + b)[1..] == a[1..] + b;
      var rest := JoinLines(a[1..]);
      assert a[0] + "\n" + (rest + "\n" + JoinLines(b)) == (a[0] + "\n" + rest) + "\n" + JoinLines(b);
    }
  }

  /** The prompt is the text of the last message that has one. */
  lemma {:induction false} LastTextIsLast(contents: seq<Option<string>>, k: nat)
    requires k <= |contents|
    requires forall i :: k <= i < |contents| ==> contents[i] == None || contents[i] == Some("")
    requires k > 0 ==> contents[k - 1].Some? && contents[k - 1] != Some("")
    ensures LastText(contents) == if k == 0 then "" else contents[k - 1].value
  {
    if contents != [] && k < |contents| {
      LastTextIsLast(contents[..|contents| - 1], k);
    }
  }

  /** The message sent is the user's, and its one part is the prompt as text. */
  lemma UserMessageCarriesPrompt(prompt: string)
    ensures var m := UserMessage(prompt);
            && m.GetStr("role") == Some("user")
            && m.Get("parts").Some? && m.Get("parts").value.Arr? && |m.Get("parts").value.items| == 1
            && var part := m.Get("parts").value.items[0];
            part.GetStr("kind") == Some("text") && part.GetStr("text") == Some(prompt)
  {
  }

  /** A stream with text that the sanitizer raises on leaves neither event nor update. */
  lemma SanitizerCanSilence(words: Wording, skill: Option<string>, id: string, text: string)
    requires text != ""
    ensures var d := Delegation([Artifact(id, [Part(TextPart, Some(text), None, None)])], None);
            Outcome(words, _ => None, d) == None && Audited(_ => None, skill, d) == []
  {
    var part := Part(TextPart, Some(text), None, None);
    assert PartTexts([part]) == [text] + PartTexts([part][1..]);
    assert Texts([Artifact(id, [part])]) == PartTexts([part]) + Texts([Artifact(id, [part])][1..]);
  }

  /** What a drained stream amounts to for the node. */
  function FromStream(d: Delivery): Delegation {
    Delegation(d.artifacts, StreamFailure(d.ending))
  }

  /**
   A failure hides what arrived before it: taking every artifact out of a failing stream changes
   neither the note nor anything else of the update, nor the audit trail.
   */
  lemma FailureHidesArtifacts(words: Wording, sanitize: string -> Option<string>, skill: Option<string>,
                              events: seq<Parsed>, broken: Option<string>)
    requires Drain(events, broken).ending != Finished
    ensures var (d, bare) := (FromStream(Drain(events, broken)), FromStream(Drain(Redacted(events), broken)));
            && bare.artifacts == []
            && Outcome(words, sanitize, d) == Outcome(words, sanitize, bare)
            && Audited(sanitize, skill, d) == Audited(sanitize, skill, bare)
  {
    RedactionKeepsEnding(events, broken);
  }

  /** How a stream ends, read off its first stopping event. */
  function FirstStop(events: seq<Parsed>, broken: Option<string>): Ending {
    var k := StopIndex(events);
    if k == |events| then Closing(broken) else if events[k].RpcError? then Refused(events[k].error) else Finished
  }

  /**
   The note of a failing stream is fixed by its first stop alone, so two streams that fail at the
   same event leave the same note whatever came before it.
   */
  lemma {:induction false} NoteTellsFirstStop(words: Wording, sanitize: string -> Option<string>,
                                              events: seq<Parsed>, broken: Option<string>)
    ensures var (stop, out) := (FirstStop(events, broken), Outcome(words, sanitize, FromStream(Drain(events, broken))));
            match stop
            case Refused(error) =>
              out == Some(Update(ErrorNote("[a2a] remote agent unavailable: "
                + ("A2A agent 'remote' unavailable: jsonrpc error: " + words.show(error))), true, None))
            case Broken(exc) =>
              out == Some(Update(ErrorNote("[a2a] remote agent unavailable: "
                + words.other(Unavailable(StreamFailed(exc)))), true, None))
            case Finished => out.Some? ==> !out.value.error
  {
    DrainDelivers(events, broken);
  }

  lemma PrepareIsNotRefused(w: World, st: State, error: Json)
    ensures Prepare(w, st).out != Err(Unavailable(StreamRefused(error)))
  {
    var d := Discover(w, st);
    if st.card.None? {
      DiscoveryIsNotRefused(w, st, Attempts(w.cfg), error);
    }
    var c := EnsureCard(w, st);
    assert c.out != Err(Unavailable(StreamRefused(error)));
    if c.out.Ok? {
      AuthorizeIsNotRefused(w, c.st, c.out.value, error);
    }
  }

  lemma {:induction false} DiscoveryIsNotRefused(w: World, st: State, n: nat, error: Json)
    requires n >= 1
    ensures TryDiscover(w, st, n).out != Err(Unavailable(StreamRefused(error)))
    decreases n
  {
    var asked := Issue(st, Get(Urls.DiscoveryUrl(w.cfg.cardUrl)));
    if n > 1 {
      DiscoveryIsNotRefused(w, asked, n - 1, error);
    }
  }

  lemma AuthorizeIsNotRefused(w: World, st: State, card: AgentCard, error: Json)
    ensures Authorize(w, st, card).out != Err(Unavailable(StreamRefused(error)))
  {
  }

  /**
   A JSON-RPC error of the peer's is what a task call fails with exactly when the call got as far
   as a stream whose first stopping event is that error; its text is then what the note quotes.
   */
  lemma PeerErrorReachesNote(w: World, st: State, message: Json, skill: Option<string>, words: Wording, error: Json)
    ensures var sent := SendTask(w, st, message, skill);
            var reply := w.replies(sent.st.log);
            sent.failure == Some(Unavailable(StreamRefused(error))) <==>
            && Prepare(w, st).out.Ok? && reply.Sse?
            && FirstStop(ParseAll(Parser(w, Prepare(w, st).st.version == Some(V10)), reply.payloads), reply.broken)
               == Refused(error)
    ensures Told(words, Unavailable(StreamRefused(error)))
         == "[a2a] remote agent unavailable: " + ("A2A agent 'remote' unavailable: jsonrpc error: " + words.show(error))
  {
    PrepareIsNotRefused(w, st, error);
    if Prepare(w, st).out.Ok? {
      var reply := w.replies(SendTask(w, st, message, skill).st.log);
      if reply.Sse? {
        DrainDelivers(ParseAll(Parser(w, Prepare(w, st).st.version == Some(V10)), reply.payloads), reply.broken);
      }
    }
  }

  lemma {:induction false} TextsConcat(a: seq<Artifact>, b: seq<Artifact>)
    ensures Texts(a + b) == Texts(a) + Texts(b)
  {
    if a == [] {
      assert a + b == b;
    } else {
      TextsConcat(a[1..], b);
      assert (a + b)[0] == a[0] && (a + b)[1..] == a[1..] + b;
      var head := PartTexts(a[0].parts);
      assert head + (Texts(a[1..]) + Texts(b)) == (head + Texts(a[1..])) + Texts(b);
    }
  }

  lemma {:induction false} PartTextsConcat(a: seq<Part>, b: seq<Part>)
    ensures PartTexts(a + b) == PartTexts(a) + PartTexts(b)
  {
    if a == [] {
      assert a + b == b;
    } else {
      PartTextsConcat(a[1..], b);
      assert (a + b)[0] == a[0] && (a + b)[1..] == a[1..] + b;
      var head := if Speaks(a[0]) then [a[0].text.value] else [];
      assert head + (PartTexts(a[1..]) + PartTexts(b)) == (head + PartTexts(a[1..])) + PartTexts(b);
    }
  }

  predicate Speaks(p: Part) {
    p.kind == TextPart && p.text.GetOr("") != ""
  }

  /** A text is in the answer exactly when some artifact of the stream has it as a non-empty text part. */
  lemma {:induction false} TextsComeFromParts(artifacts: seq<Artifact>, text: string)
    ensures text in Texts(artifacts) <==>
            exists i, k :: 0 <= i < |artifacts| && 0 <= k < |artifacts[i].parts|
              && Speaks(artifacts[i].parts[k]) && artifacts[i].parts[k].text == Some(text)
  {
    if artifacts != [] {
      var head, rest := artifacts[0].parts, artifacts[1..];
      PartTextsFrom(head, text);
      TextsComeFromParts(rest, text);
      if text in Texts(rest) {
        var i, k :| 0 <= i < |rest| && 0 <= k < |rest[i].parts|
          && Speaks(rest[i].parts[k]) && rest[i].parts[k].text == Some(text);
        assert artifacts[i + 1] == rest[i];
      }
      forall i, k | 0 <= i < |artifacts| && 0 <= k < |artifacts[i].parts|
                    && Speaks(artifacts[i].parts[k]) && artifacts[i].parts[k].text == Some(text)
        ensures text in Texts(artifacts)
      {
        if i > 0 {
          assert artifacts[i] == rest[i - 1];
        }
      }
    }
  }

  lemma {:induction false} PartTextsFrom(parts: seq<Part>, text: string)
    ensures text in PartTexts(parts) <==>
            exists k :: 0 <= k < |parts| && Speaks(parts[k]) && parts[k].text == Some(text)
  {
    if parts != [] {
      var rest := parts[1..];
      PartTextsFrom(rest, text);
      if text in PartTexts(rest) {
        var k :| 0 <= k < |rest| && Speaks(rest[k]) && rest[k].text == Some(text);
        assert parts[k + 1] == rest[k];
      }
      forall k | 0 <= k < |parts| && Speaks(parts[k]) && parts[k].text == Some(text)
        ensures text in PartTexts(parts)
      {
        if k > 0 {
          assert parts[k] == rest[k - 1];
        }
      }
    }
  }
}
