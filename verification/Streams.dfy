/**
 Decoding the server-sent events of a task stream, in both protocol versions, and what
 draining a stream delivers.
 */
module Streams {
  import opened Wrappers
  import opened Json

  datatype PartKind = TextPart | DataPart | FilePart

  datatype Part = Part(kind: PartKind, text: Option<string>, data: Option<Json>, file: Option<map<string, Json>>)

  datatype Artifact = Artifact(id: string, parts: seq<Part>)

  // The 1.0 wire shapes.
  datatype PartV1 = PartV1(
    text: Option<string>, raw: Option<string>, url: Option<string>, data: Option<Json>,
    mediaType: Option<string>, filename: Option<string>)

  datatype ArtifactV1 = ArtifactV1(id: string, parts: seq<PartV1>)

  datatype TaskState =
    | Unspecified | Submitted | Working | Completed | Failed | Canceled
    | InputRequired | Rejected | AuthRequired

  datatype TaskV1 = TaskV1(state: TaskState, artifacts: seq<ArtifactV1>)

  datatype MessageV1 = MessageV1(id: string, parts: seq<PartV1>)

  datatype StreamEvent = StreamEvent(
    task: Option<TaskV1>, message: Option<MessageV1>,
    statusUpdate: Option<TaskState>, artifactUpdate: Option<ArtifactV1>)

  /** The validators of the two wire models. */
  datatype StreamLibs = StreamLibs(
    validateArtifact: Json -> Option<Artifact>,
    validateStream: Json -> Option<StreamEvent>)

  /** One event payload: text that is not JSON, or a decoded value. */
  datatype Payload = Garbage | Decoded(json: Json)

  /** A decoded event: a JSON-RPC error (section 5 of JSON-RPC 2.0), or artifacts and a terminal mark. */
  datatype Parsed = RpcError(error: Json) | Event(artifacts: seq<Artifact>, done: bool)

  const Silent := Event([], false)

  const LEGACY_TERMINAL: set<string> := {"completed", "failed", "canceled"}

  predicate TerminalV1(s: TaskState) {
    s.Completed? || s.Failed? || s.Canceled? || s.Rejected?
  }

  function PartToInternal(p: PartV1): Part {
    if p.text.Some? then Part(TextPart, p.text, None, None)
    else if p.data.Some? then
      Part(DataPart, None, Some(if p.data.value.Obj? then p.data.value else Obj(map["value" := p.data.value])), None)
    else
      var body := if p.raw.Some? then map["bytes" := Str(p.raw.value)]
                  else map["uri" := if p.url.Some? then Str(p.url.value) else Null];
      var typed := if p.mediaType.Some? then body["mimeType" := Str(p.mediaType.value)] else body;
      Part(FilePart, None, None, Some(if p.filename.Some? then typed["name" := Str(p.filename.value)] else typed))
  }

  function PartsToInternal(ps: seq<PartV1>): seq<Part> {
    seq(|ps|, i requires 0 <= i < |ps| => PartToInternal(ps[i]))
  }

  function ArtifactToInternal(a: ArtifactV1): Artifact {
    Artifact(a.id, PartsToInternal(a.parts))
  }

  function ArtifactsToInternal(arts: seq<ArtifactV1>): seq<Artifact> {
    seq(|arts|, i requires 0 <= i < |arts| => ArtifactToInternal(arts[i]))
  }

  function ParseLegacy(libs: StreamLibs, data: Payload): Parsed {
    if data.Garbage? then Silent
    else if data.json.Get("error").Some? then RpcError(data.json.Get("error").value)
    else
      var result := if data.json.Obj? then data.json.Get("result").GetOr(data.json) else Obj(map[]);
      if !result.Obj? then Silent
      else if result.GetStr("status").Some? && result.GetStr("status").value in LEGACY_TERMINAL then Event([], true)
      else
        var raw := result.Get("artifact").GetOr(result);
        if raw.Get("artifactId").Some? || raw.Get("parts").Some? then
          var artifact := libs.validateArtifact(raw);
          if artifact.Some? then Event([artifact.value], false) else Silent
        else Silent
  }

  function ParseV1(libs: StreamLibs, data: Payload): Parsed {
    if data.Garbage? then Silent
    else if data.json.Get("error").Some? then RpcError(data.json.Get("error").value)
    else
      var result := data.json.Get("result").GetOr(Null);
      if !result.Obj? then Silent
      else
        var event := libs.validateStream(result);
        if event.None? then Silent
        else
          var e := event.value;
          if e.artifactUpdate.Some? then Event([ArtifactToInternal(e.artifactUpdate.value)], false)
          else if e.statusUpdate.Some? then Event([], TerminalV1(e.statusUpdate.value))
          else if e.task.Some? then Event(ArtifactsToInternal(e.task.value.artifacts), TerminalV1(e.task.value.state))
          else if e.message.Some? then
            Event([Artifact(e.message.value.id, PartsToInternal(e.message.value.parts))], true)
          else Silent
  }

  /** How a drained stream ended: closed or terminal, a JSON-RPC error, or an HTTP exception. */
  datatype Ending = Finished | Refused(error: Json) | Broken(exc: string)

  datatype Delivery = Delivery(artifacts: seq<Artifact>, ending: Ending)

  function After(artifacts: seq<Artifact>, d: Delivery): Delivery {
    Delivery(artifacts + d.artifacts, d.ending)
  }

  function Closing(broken: Option<string>): Ending {
    if broken.Some? then Broken(broken.value) else Finished
  }

  /** What a consumer that reads to the end receives; `broken`: the exception, if one follows the last event. */
  function Drain(events: seq<Parsed>, broken: Option<string>): Delivery {
    if events == [] then Delivery([], Closing(broken))
    else if events[0].RpcError? then Delivery([], Refused(events[0].error))
    else if events[0].done then Delivery(events[0].artifacts, Finished)
    else After(events[0].artifacts, Drain(events[1..], broken))
  }

  function ParseAll(parse: Payload -> Parsed, payloads: seq<Payload>): seq<Parsed> {
    seq(|payloads|, i requires 0 <= i < |payloads| => parse(payloads[i]))
  }

  /** One turn of the event loop: what is left to deliver, seen from event `i`. */
  lemma DrainStep(got: seq<Artifact>, events: seq<Parsed>, i: nat, broken: Option<string>)
    requires i < |events|
    ensures After(got, Drain(events[i..], broken)) ==
      if events[i].RpcError? then Delivery(got, Refused(events[i].error))
      else if events[i].done then Delivery(got + events[i].artifacts, Finished)
      else After(got + events[i].artifacts, Drain(events[i + 1..], broken))
  {
    var tail := events[i..];
    assert tail[0] == events[i] && tail[1..] == events[i + 1..];
    if events[i].Event? {
      var rest := Drain(events[i + 1..], broken).artifacts;
      assert got + (events[i].artifacts + rest) == got + events[i].artifacts + rest;
    }
  }

  // ---------- what draining delivers ----------

  predicate Stops(e: Parsed) {
    e.RpcError? || e.done
  }

  /** All artifacts of events that are not errors, in order. */
  function Artifacts(events: seq<Parsed>): seq<Artifact> {
    if events == [] then []
    else (if events[0].Event? then events[0].artifacts else []) + Artifacts(events[1..])
  }

  /** Index of the first event that stops the stream, or its length. */
  function StopIndex(events: seq<Parsed>): (k: nat)
    ensures k <= |events|
    ensures forall i :: 0 <= i < k ==> !Stops(events[i])
    ensures k < |events| ==> Stops(events[k])
  {
    if events == [] || Stops(events[0]) then 0 else 1 + StopIndex(events[1..])
  }

  /**
   The stream delivers exactly the artifacts up to and including the first terminal event,
   and fails exactly when an error event comes first or the connection breaks before any stop.
   */
  lemma {:induction false} DrainDelivers(events: seq<Parsed>, broken: Option<string>)
    ensures var k := StopIndex(events);
            Drain(events, broken) ==
              if k == |events| then Delivery(Artifacts(events), Closing(broken))
              else if events[k].RpcError? then Delivery(Artifacts(events[..k]), Refused(events[k].error))
              else Delivery(Artifacts(events[..k + 1]), Finished)
  {
    var k := StopIndex(events);
    if events == [] {
    } else if Stops(events[0]) {
      assert events[..1] == [events[0]];
      var head := if events[0].Event? then events[0].artifacts else [];
      assert Artifacts(events[..1]) == head + Artifacts(events[..1][1..]);
    } else {
      DrainDelivers(events[1..], broken);
      assert k == 1 + StopIndex(events[1..]);
      assert events[..k][1..] == events[1..][..k - 1];
      if k < |events| {
        assert events[..k + 1][1..] == events[1..][..k];
        assert events[k] == events[1..][k - 1];
      }
    }
  }

  /** Nothing after the event that stops the stream matters, not even a broken connection. */
  lemma {:induction false} DrainIgnoresTail(head: seq<Parsed>, stop: Parsed, tail: seq<Parsed>, broken: Option<string>)
    requires Stops(stop)
    ensures Drain(head + [stop] + tail, broken) == Drain(head + [stop], None)
  {
    var long, short := head + [stop] + tail, head + [stop];
    if head == [] {
      assert long[0] == stop && short[0] == stop;
    } else {
      assert long[0] == head[0] && short[0] == head[0];
      assert long[1..] == head[1..] + [stop] + tail;
      assert short[1..] == head[1..] + [stop];
      DrainIgnoresTail(head[1..], stop, tail, broken);
    }
  }

  function DropSilent(events: seq<Parsed>): (kept: seq<Parsed>)
    ensures Silent !in kept
  {
    if events == [] then []
    else if events[0] == Silent then DropSilent(events[1..])
    else [events[0]] + DropSilent(events[1..])
  }

  /** Events that decode to nothing can be deleted without changing what is delivered. */
  lemma {:induction false} DrainIgnoresSilent(events: seq<Parsed>, broken: Option<string>)
    ensures Drain(DropSilent(events), broken) == Drain(events, broken)
  {
    if events != [] {
      DrainIgnoresSilent(events[1..], broken);
      if events[0] != Silent {
        assert DropSilent(events)[1..] == DropSilent(events[1..]);
      }
    }
  }

  function DropGarbage(payloads: seq<Payload>): (kept: seq<Payload>)
    ensures Garbage !in kept
  {
    if payloads == [] then []
    else if payloads[0].Garbage? then DropGarbage(payloads[1..])
    else [payloads[0]] + DropGarbage(payloads[1..])
  }

  /** Undecodable payloads change nothing, in either version of the protocol. */
  lemma {:induction false} DrainIgnoresGarbage(
      libs: StreamLibs, v1: bool, payloads: seq<Payload>, broken: Option<string>)
    ensures var parse := (d: Payload) => if v1 then ParseV1(libs, d) else ParseLegacy(libs, d);
            Drain(ParseAll(parse, DropGarbage(payloads)), broken) == Drain(ParseAll(parse, payloads), broken)
  {
    var parse := (d: Payload) => if v1 then ParseV1(libs, d) else ParseLegacy(libs, d);
    if payloads != [] {
      DrainIgnoresGarbage(libs, v1, payloads[1..], broken);
      assert ParseAll(parse, payloads)[1..] == ParseAll(parse, payloads[1..]);
      if payloads[0].Decoded? {
        var kept := DropGarbage(payloads);
        assert kept[0] == payloads[0] && kept[1..] == DropGarbage(payloads[1..]);
        assert ParseAll(parse, kept)[1..] == ParseAll(parse, kept[1..]);
      } else {
        assert parse(payloads[0]) == Silent;
      }
    }
  }

  /**
   No legacy event both delivers an artifact and ends the stream, so a drained legacy stream
   delivers only what came before its terminal event; a 1.0 task or message event may do both.
   */
  lemma LegacyTerminalCarriesNothing(libs: StreamLibs, events: seq<Payload>, broken: Option<string>)
    ensures var parsed := ParseAll(d => ParseLegacy(libs, d), events);
            var k := StopIndex(parsed);
            Drain(parsed, broken).artifacts == Artifacts(parsed[..k])
  {
    var parsed := ParseAll(d => ParseLegacy(libs, d), events);
    var k := StopIndex(parsed);
    DrainDelivers(parsed, broken);
    if k == |events| {
      assert parsed[..k] == parsed;
    } else if parsed[k].Event? {
      ArtifactsConcat(parsed[..k], [parsed[k]]);
      assert parsed[..k + 1] == parsed[..k] + [parsed[k]];
      assert parsed[k] == ParseLegacy(libs, events[k]);
    }
  }

  lemma {:induction false} ArtifactsConcat(a: seq<Parsed>, b: seq<Parsed>)
    ensures Artifacts(a + b) == Artifacts(a) + Artifacts(b)
  {
    if a == [] {
      assert a + b == b;
    } else {
      ArtifactsConcat(a[1..], b);
      assert (a + b)[1..] == a[1..] + b;
    }
  }

  /** The stream with every artifact taken out. */
  function Redacted(events: seq<Parsed>): seq<Parsed> {
    seq(|events|, i requires 0 <= i < |events| => if events[i].Event? then Event([], events[i].done) else events[i])
  }

  /** How a stream ends does not depend on the artifacts in it. */
  lemma {:induction false} RedactionKeepsEnding(events: seq<Parsed>, broken: Option<string>)
    ensures Drain(Redacted(events), broken) == Delivery([], Drain(events, broken).ending)
  {
    if events != [] {
      RedactionKeepsEnding(events[1..], broken);
      assert Redacted(events)[1..] == Redacted(events[1..]);
    }
  }
}
