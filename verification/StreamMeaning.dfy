/** What a task stream says, read off the raw JSON of its events. */
module StreamMeaning {
  import opened Wrappers
  import opened Json
  import opened Streams

  // ---------- legacy events ----------

  predicate IsError(data: Payload) {
    data.Decoded? && data.json.Obj? && "error" in data.json.fields
  }

  /** The fields a legacy event speaks through: those of its result, or its own when it has none. */
  predicate LegacyBody(data: Payload, body: map<string, Json>) {
    && data.Decoded? && data.json.Obj? && "error" !in data.json.fields
    && (if "result" in data.json.fields then data.json.fields["result"] else data.json) == Obj(body)
  }

  /** Exactly three statuses end a legacy stream. */
  predicate LegacyEnd(body: map<string, Json>) {
    "status" in body
    && (body["status"] == Str("completed") || body["status"] == Str("failed") || body["status"] == Str("canceled"))
  }

  /** The object a legacy event offers as an artifact: its `artifact`, or the body itself. */
  predicate LegacyOffers(body: map<string, Json>, raw: map<string, Json>) {
    && (if "artifact" in body then body["artifact"] == Obj(raw) else body == raw)
    && ("artifactId" in raw || "parts" in raw)
  }

  ghost predicate LegacyEnds(data: Payload) {
    exists body :: LegacyBody(data, body) && LegacyEnd(body)
  }

  ghost predicate LegacyArtifact(libs: StreamLibs, data: Payload, a: Artifact) {
    exists body, raw ::
      && LegacyBody(data, body) && !LegacyEnd(body) && LegacyOffers(body, raw)
      && libs.validateArtifact(Obj(raw)) == Some(a)
  }

  /** The legacy event delivers `artifacts`, and ends the stream or not. */
  ghost predicate LegacySays(libs: StreamLibs, data: Payload, artifacts: seq<Artifact>, ends: bool) {
    && !IsError(data) && (ends <==> LegacyEnds(data))
    && (forall a :: LegacyArtifact(libs, data, a) <==> artifacts == [a])
    && |artifacts| <= 1
  }

  lemma LegacyBodyUnique(data: Payload, a: map<string, Json>, b: map<string, Json>)
    requires LegacyBody(data, a) && LegacyBody(data, b)
    ensures a == b
  {
  }

  lemma LegacyDecoderSays(libs: StreamLibs, data: Payload)
    ensures IsError(data) ==> ParseLegacy(libs, data) == RpcError(data.json.fields["error"])
    ensures !IsError(data) ==>
              && ParseLegacy(libs, data).Event?
              && LegacySays(libs, data, ParseLegacy(libs, data).artifacts, ParseLegacy(libs, data).done)
  {
    if !IsError(data) && data.Decoded? && data.json.Obj? {
      var result := if "result" in data.json.fields then data.json.fields["result"] else data.json;
      if result.Obj? {
        LegacyBodySays(libs, data, result.fields);
      }
    }
  }

  lemma LegacyBodySays(libs: StreamLibs, data: Payload, body: map<string, Json>)
    requires LegacyBody(data, body)
    ensures var p := ParseLegacy(libs, data);
            p.Event? && LegacySays(libs, data, p.artifacts, p.done)
  {
    var p := ParseLegacy(libs, data);
    var raw := if "artifact" in body then body["artifact"] else Obj(body);
    forall b | LegacyBody(data, b) ensures b == body {
      LegacyBodyUnique(data, b, body);
    }
    assert LegacyEnds(data) <==> LegacyEnd(body);
    if !LegacyEnd(body) && raw.Obj? && LegacyOffers(body, raw.fields) {
      var a := libs.validateArtifact(raw);
      assert a.Some? ==> LegacyArtifact(libs, data, a.value);
      assert p == if a.Some? then Event([a.value], false) else Silent;
    } else {
      assert p.Event? && p.artifacts == [];
      assert forall a :: !LegacyArtifact(libs, data, a);
    }
  }

  lemma LegacySaysOneThing(libs: StreamLibs, data: Payload,
                           a: seq<Artifact>, aEnds: bool, b: seq<Artifact>, bEnds: bool)
    requires LegacySays(libs, data, a, aEnds) && LegacySays(libs, data, b, bEnds)
    ensures a == b && aEnds == bEnds
  {
    assert a != [] ==> a == [a[0]] && LegacyArtifact(libs, data, a[0]);
    assert b != [] ==> b == [b[0]] && LegacyArtifact(libs, data, b[0]);
  }

  /** The decoder hears exactly what a legacy event says. */
  lemma LegacyEventMeaning(libs: StreamLibs, data: Payload)
    ensures forall error :: ParseLegacy(libs, data) == RpcError(error)
                       <==> IsError(data) && data.json.fields["error"] == error
    ensures forall artifacts, ends :: ParseLegacy(libs, data) == Event(artifacts, ends)
                                 <==> LegacySays(libs, data, artifacts, ends)
  {
    LegacyDecoderSays(libs, data);
    var p := ParseLegacy(libs, data);
    forall artifacts, ends | LegacySays(libs, data, artifacts, ends) ensures p == Event(artifacts, ends) {
      LegacySaysOneThing(libs, data, p.artifacts, p.done, artifacts, ends);
    }
  }

  // ---------- 1.0 events ----------

  /** The event is a 1.0 result that reads as `e`. */
  predicate V1Reads(libs: StreamLibs, data: Payload, e: StreamEvent) {
    && data.Decoded? && data.json.Obj? && "error" !in data.json.fields
    && "result" in data.json.fields && data.json.fields["result"].Obj?
    && libs.validateStream(data.json.fields["result"]) == Some(e)
  }

  /** Exactly four states end a 1.0 stream. */
  predicate V1End(state: TaskState) {
    state in {Completed, Failed, Canceled, Rejected}
  }

  /** `inner` is the artifact `wire`, part by part; part conversion has an inverse of its own. */
  predicate Converted(inner: Artifact, id: string, parts: seq<PartV1>) {
    && inner.id == id && |inner.parts| == |parts|
    && forall k :: 0 <= k < |parts| ==> inner.parts[k] == PartToInternal(parts[k])
  }

  predicate AllConverted(inner: seq<Artifact>, wire: seq<ArtifactV1>) {
    && |inner| == |wire|
    && forall k :: 0 <= k < |wire| ==> Converted(inner[k], wire[k].id, wire[k].parts)
  }

  /** What an event of each of the four kinds says, in the order in which the kinds are tried. */
  predicate V1EventSays(e: StreamEvent, artifacts: seq<Artifact>, ends: bool) {
    match e
    case StreamEvent(_, _, _, Some(update)) => !ends && AllConverted(artifacts, [update])
    case StreamEvent(_, _, Some(state), None) => artifacts == [] && (ends <==> V1End(state))
    case StreamEvent(Some(task), _, None, None) =>
      AllConverted(artifacts, task.artifacts) && (ends <==> V1End(task.state))
    case StreamEvent(None, Some(message), None, None) =>
      ends && |artifacts| == 1 && Converted(artifacts[0], message.id, message.parts)
    case StreamEvent(None, None, None, None) => artifacts == [] && !ends
  }

  ghost predicate V1Says(libs: StreamLibs, data: Payload, artifacts: seq<Artifact>, ends: bool) {
    && !IsError(data)
    && (forall e :: V1Reads(libs, data, e) ==> V1EventSays(e, artifacts, ends))
    && ((forall e :: !V1Reads(libs, data, e)) ==> artifacts == [] && !ends)
  }

  lemma ConvertedUnique(a: Artifact, b: Artifact, id: string, parts: seq<PartV1>)
    requires Converted(a, id, parts) && Converted(b, id, parts)
    ensures a == b
  {
    assert a.parts == b.parts;
  }

  lemma AllConvertedUnique(a: seq<Artifact>, b: seq<Artifact>, wire: seq<ArtifactV1>)
    requires AllConverted(a, wire) && AllConverted(b, wire)
    ensures a == b
  {
    forall k | 0 <= k < |a| ensures a[k] == b[k] {
      ConvertedUnique(a[k], b[k], wire[k].id, wire[k].parts);
    }
  }

  lemma V1EventUnique(e: StreamEvent, a: seq<Artifact>, aEnds: bool, b: seq<Artifact>, bEnds: bool)
    requires V1EventSays(e, a, aEnds) && V1EventSays(e, b, bEnds)
    ensures a == b && aEnds == bEnds
  {
    match e
    case StreamEvent(_, _, _, Some(update)) => AllConvertedUnique(a, b, [update]);
    case StreamEvent(_, _, Some(state), None) =>
    case StreamEvent(Some(task), _, None, None) => AllConvertedUnique(a, b, task.artifacts);
    case StreamEvent(None, Some(message), None, None) => ConvertedUnique(a[0], b[0], message.id, message.parts);
    case StreamEvent(None, None, None, None) =>
  }

  lemma V1DecoderSays(libs: StreamLibs, data: Payload)
    ensures IsError(data) ==> ParseV1(libs, data) == RpcError(data.json.fields["error"])
    ensures !IsError(data) ==>
              ParseV1(libs, data).Event? && V1Says(libs, data, ParseV1(libs, data).artifacts, ParseV1(libs, data).done)
  {
    var result := if data.Decoded? then data.json.Get("result").GetOr(Null) else Null;
    if !IsError(data) && result.Obj? {
      var event := libs.validateStream(result);
      if event.Some? {
        var p := ParseV1(libs, data);
        assert V1Reads(libs, data, event.value);
        assert V1EventSays(event.value, p.artifacts, p.done);
      }
    }
  }

  /** The decoder hears exactly what a 1.0 event says. */
  lemma V1EventMeaning(libs: StreamLibs, data: Payload)
    ensures forall error :: ParseV1(libs, data) == RpcError(error)
                       <==> IsError(data) && data.json.fields["error"] == error
    ensures forall artifacts, ends :: ParseV1(libs, data) == Event(artifacts, ends)
                                 <==> V1Says(libs, data, artifacts, ends)
  {
    V1DecoderSays(libs, data);
    var p := ParseV1(libs, data);
    forall artifacts, ends | V1Says(libs, data, artifacts, ends) ensures p == Event(artifacts, ends) {
      if e :| V1Reads(libs, data, e) {
        V1EventUnique(e, p.artifacts, p.done, artifacts, ends);
      }
    }
  }

  // ---------- parts ----------

  /** The repository's own inverse of part conversion. */
  function PartFromInternal(p: Part): PartV1 {
    match p.kind
    case DataPart => PartV1(None, None, None, Some(p.data.GetOr(Obj(map[]))), None, None)
    case FilePart =>
      var file := Obj(p.file.GetOr(map[]));
      if file.GetStr("bytes").Some? then
        PartV1(None, file.GetStr("bytes"), None, None, file.GetStr("mimeType"), file.GetStr("name"))
      else if file.GetStr("uri").Some? then
        PartV1(None, None, file.GetStr("uri"), None, file.GetStr("mimeType"), file.GetStr("name"))
      else PartV1(Some(""), None, None, None, None, None)
    case TextPart => PartV1(Some(p.text.GetOr("")), None, None, None, None, None)
  }

  /**
   A 1.0 part survives the trip through the internal form and back exactly when it has one content
   member, a data member is an object, and media type and file name come only with a file. Data
   that is no object is kept under the key "value".
   */
  lemma PartRoundTrips(p: PartV1)
    ensures PartFromInternal(PartToInternal(p)) == p <==>
            if p.text.Some? then p == PartV1(p.text, None, None, None, None, None)
            else if p.data.Some? then p.data.value.Obj? && p == PartV1(None, None, None, p.data, None, None)
            else p.raw.Some? != p.url.Some?
    ensures p.text.None? && p.data.Some? && !p.data.value.Obj? ==>
              PartToInternal(p).kind == DataPart && PartToInternal(p).data == Some(Obj(map["value" := p.data.value]))
  {
    if p.text.None? && p.data.None? {
      var file := Obj(PartToInternal(p).file.value);
      assert file.GetStr("bytes") == p.raw;
      assert p.raw.None? ==> file.GetStr("uri") == p.url;
      assert file.GetStr("mimeType") == p.mediaType && file.GetStr("name") == p.filename;
    }
  }

  // ---------- whole streams ----------

  ghost predicate Says(libs: StreamLibs, v1: bool, data: Payload, artifacts: seq<Artifact>, ends: bool) {
    if v1 then V1Says(libs, data, artifacts, ends) else LegacySays(libs, data, artifacts, ends)
  }

  function Flat(said: seq<seq<Artifact>>): seq<Artifact> {
    if said == [] then [] else said[0] + Flat(said[1..])
  }

  function Decoder(libs: StreamLibs, v1: bool): Payload -> Parsed {
    (d: Payload) => if v1 then ParseV1(libs, d) else ParseLegacy(libs, d)
  }

  /** How a stream ends that goes on for `said` events: by the next event, or by closing. */
  ghost predicate StopsWith(libs: StreamLibs, v1: bool, payloads: seq<Payload>, broken: Option<string>, n: nat,
                           last: seq<Artifact>, ending: Ending)
    requires n <= |payloads|
  {
    match ending
    case Refused(error) =>
      n < |payloads| && IsError(payloads[n]) && payloads[n].json.fields["error"] == error && last == []
    case Broken(exc) => n == |payloads| && broken == Some(exc) && last == []
    case Finished =>
      if n == |payloads| then broken == None && last == [] else Says(libs, v1, payloads[n], last, true)
  }

  /**
   A stream whose first events say these artifacts, one batch each, without ending it, and which
   then ends in this way, delivers the batches in order and ends so.
   */
  lemma {:induction false} StreamDelivers(libs: StreamLibs, v1: bool, payloads: seq<Payload>, broken: Option<string>,
                                          said: seq<seq<Artifact>>, last: seq<Artifact>, ending: Ending)
    requires |said| <= |payloads|
    requires forall i :: 0 <= i < |said| ==> Says(libs, v1, payloads[i], said[i], false)
    requires StopsWith(libs, v1, payloads, broken, |said|, last, ending)
    ensures Drain(ParseAll(Decoder(libs, v1), payloads), broken) == Delivery(Flat(said) + last, ending)
  {
    var events := ParseAll(Decoder(libs, v1), payloads);
    if payloads != [] {
      LegacyEventMeaning(libs, payloads[0]);
      V1EventMeaning(libs, payloads[0]);
    }
    if said != [] {
      assert events[0] == Event(said[0], false);
      assert events[1..] == ParseAll(Decoder(libs, v1), payloads[1..]);
      StreamDelivers(libs, v1, payloads[1..], broken, said[1..], last, ending);
      assert said[0] + (Flat(said[1..]) + last) == (said[0] + Flat(said[1..])) + last;
    } else if payloads != [] {
      assert events[0] == Decoder(libs, v1)(payloads[0]);
    }
  }
}
