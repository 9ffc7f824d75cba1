/** What a client takes from a raw Agent Card, read off the JSON alone. */
module CardReading {
  import opened Wrappers
  import opened Json
  import opened Negotiation
  import opened ClientSpec

  /** A version text's meaning. */
  predicate Means(text: string, v: Version) {
    match v
    case V10 => Strip(text) == "1" || "1." <= Strip(text)
    case V03 => Strip(text) == "0.3" || "0.3." <= Strip(text)
  }

  predicate Versioned(fields: map<string, Json>, v: Version) {
    "protocolVersion" in fields && fields["protocolVersion"].Str? && Means(fields["protocolVersion"].text, v)
  }

  /** A JSON-RPC endpoint for `v`: no other binding is named. */
  predicate Endpoint(item: Json, v: Version) {
    && item.Obj? && Versioned(item.fields, v)
    && ("protocolBinding" in item.fields ==> item.fields["protocolBinding"] == Str("JSONRPC"))
  }

  /** ... that names a URL. */
  predicate Usable(item: Json, v: Version) {
    && Endpoint(item, v)
    && "url" in item.fields && item.fields["url"].Str? && item.fields["url"].text != ""
  }

  lemma NormalizedMeans(raw: Json, v: Version)
    ensures NormalizeVersion(raw) == Some(v) <==> raw.Str? && Means(raw.text, v)
  {
    if raw.Str? {
      NormalizesToOne(raw.text);
      NormalizesToLegacy(raw.text);
    }
  }

  /** What one interface of a card offers. */
  lemma EndpointOffer(item: Json, v: Version)
    ensures (InterfaceOffer(item).Some? && InterfaceOffer(item).value.version == v) <==> Endpoint(item, v)
    ensures Endpoint(item, v) ==>
              && InterfaceOffer(item).value.url == item.GetStr("url")
              && InterfaceOffer(item).value.tenant == item.GetStr("tenant")
  {
    if item.Obj? {
      NormalizedMeans(item.Get("protocolVersion").GetOr(Null), v);
    }
  }

  lemma {:induction false} EndpointsOffered(items: seq<Json>, v: Version)
    ensures (exists o :: o in InterfaceOffers(items) && o.version == v) <==>
            exists i :: 0 <= i < |items| && Endpoint(items[i], v)
  {
    if items != [] {
      var rest := items[1..];
      EndpointsOffered(rest, v);
      EndpointOffer(items[0], v);
      var head := InterfaceOffer(items[0]);
      assert InterfaceOffers(items) == (if head.Some? then [head.value] else []) + InterfaceOffers(rest);
      assert forall i :: 1 <= i < |items| ==> items[i] == rest[i - 1];
      assert forall i :: 0 <= i < |rest| ==> rest[i] == items[i + 1];
      if head.Some? && head.value.version == v {
        assert head.value in InterfaceOffers(items);
      }
    }
  }

  /** The interfaces a raw card lists. */
  function Items(fields: map<string, Json>): seq<Json> {
    if "supportedInterfaces" in fields && fields["supportedInterfaces"].Arr?
    then fields["supportedInterfaces"].items else []
  }

  /** A card offers a version exactly when one of its JSON-RPC interfaces, or its own top level, is for it. */
  lemma OffersExactly(fields: map<string, Json>, v: Version)
    ensures Offers(Obj(fields), v) <==>
            (exists i :: 0 <= i < |Items(fields)| && Endpoint(Items(fields)[i], v)) || Versioned(fields, v)
  {
    EndpointsOffered(Items(fields), v);
    var top := Obj(fields).Get("protocolVersion").GetOr(Null);
    NormalizedMeans(top, v);
    var listed := InterfaceOffers(Items(fields));
    var version := NormalizeVersion(top);
    var own := if version.Some? then [Offer(version.value, Obj(fields).GetStr("url"), None)] else [];
    assert Advertised(Obj(fields)) == listed + own;
    assert forall o :: o in listed + own <==> o in listed || o in own;
    if Versioned(fields, v) {
      assert own[0] in own && own[0].version == v;
    }
  }

  /** Interfaces of other bindings alone offer nothing, whatever their versions and URLs. */
  lemma OtherBindingsOfferNothing(fields: map<string, Json>, v: Version)
    requires "protocolVersion" !in fields
    requires forall item :: item in Items(fields) && item.Obj? ==>
               "protocolBinding" in item.fields && item.fields["protocolBinding"] != Str("JSONRPC")
    ensures !Offers(Obj(fields), v)
  {
    OffersExactly(fields, v);
    assert forall i :: 0 <= i < |Items(fields)| ==> Items(fields)[i] in Items(fields);
  }

  lemma {:induction false} FirstUsableItem(items: seq<Json>, v: Version, i: nat)
    requires i <= |items| && forall j :: 0 <= j < i ==> !Usable(items[j], v)
    requires i < |items| ==> Usable(items[i], v)
    ensures FirstUsable(InterfaceOffers(items), v) ==
            if i < |items| then Some(Offer(v, items[i].GetStr("url"), items[i].GetStr("tenant"))) else None
  {
    if items != [] {
      var head, rest := InterfaceOffer(items[0]), items[1..];
      EndpointOffer(items[0], v);
      var offers := InterfaceOffers(items);
      assert head.Some? ==> offers[0] == head.value && offers[1..] == InterfaceOffers(rest);
      assert head.Some? && head.value.version == v && head.value.url.GetOr("") != "" <==> Usable(items[0], v);
      if i > 0 {
        FirstUsableItem(rest, v, i - 1);
      }
    }
  }

  lemma {:induction false} FirstUsableOfBoth(a: seq<Offer>, b: seq<Offer>, v: Version)
    ensures FirstUsable(a + b, v) == if FirstUsable(a, v).Some? then FirstUsable(a, v) else FirstUsable(b, v)
  {
    if a == [] {
      assert a + b == b;
    } else {
      assert (a + b)[0] == a[0] && (a + b)[1..] == a[1..] + b;
      FirstUsableOfBoth(a[1..], b, v);
    }
  }

  /**
   From a 1.0-shaped card a client takes URL and tenant of the first interface that is a JSON-RPC
   endpoint of the settled version with a URL; when there is none, an empty URL and no tenant.
   */
  lemma AdoptsFirstUsable(w: World, st: State, fields: map<string, Json>, i: nat)
    requires "supportedInterfaces" in fields && "url" !in fields
    requires Adopt(w, st, Obj(fields)).out.Ok?
    requires var v := Adopt(w, st, Obj(fields)).st.version.value;
             && i <= |Items(fields)| && (forall j :: 0 <= j < i ==> !Usable(Items(fields)[j], v))
             && (i < |Items(fields)| ==> Usable(Items(fields)[i], v))
    ensures var (a, items) := (Adopt(w, st, Obj(fields)), Items(fields));
            && a.st.card == Some(a.out.value)
            && a.st.cardV1 == w.cards.validateCardV1(Obj(fields)) && a.st.cardV1.Some?
            && a.out.value.details == w.cards.projectCard(a.st.cardV1.value).details
            && a.out.value.protocolVersion == (if a.st.version == Some(V10) then "1.0" else "0.3")
            && (if i < |items| then
                 && Str(a.out.value.url) == items[i].fields["url"]
                 && a.st.cardTenant ==
                      if "tenant" in items[i].fields && items[i].fields["tenant"].Str?
                      then Some(items[i].fields["tenant"].text) else None
               else a.out.value.url == "" && a.st.cardTenant == None)
  {
    var v := Adopt(w, st, Obj(fields)).st.version.value;
    var listed := InterfaceOffers(Items(fields));
    FirstUsableItem(Items(fields), v, i);
    var top := NormalizeVersion(Obj(fields).Get("protocolVersion").GetOr(Null));
    var own := if top.Some? then [Offer(top.value, None, None)] else [];
    assert Advertised(Obj(fields)) == listed + own;
    FirstUsableOfBoth(listed, own, v);
    assert own != [] ==> own[1..] == [];
    assert FirstUsable(own, v) == None;
  }

  /**
   Which version a client settles on: a pinned one when the card offers it and an error otherwise;
   unpinned, 1.0 when offered and 0.3 in every other case. A card of the other shape is adopted
   whole.
   */
  lemma AdoptsVersion(w: World, st: State, fields: map<string, Json>)
    ensures var a := Adopt(w, st, Obj(fields));
            var items := Items(fields);
            var one := (exists i :: 0 <= i < |items| && Endpoint(items[i], V10)) || Versioned(fields, V10);
            var legacy := (exists i :: 0 <= i < |items| && Endpoint(items[i], V03)) || Versioned(fields, V03);
            && (a.out == Err(VersionMismatch) <==>
                 match w.cfg.protocol
                 case Auto => false
                 case Pinned(V10) => !one
                 case Pinned(V03) => one && !legacy)
            && (a.out.Ok? ==>
                 match w.cfg.protocol
                 case Pinned(v) => a.st.version == Some(v)
                 case Auto => a.st.version == if one then Some(V10) else Some(V03))
            && (a.out != Err(VersionMismatch) && !("supportedInterfaces" in fields && "url" !in fields) ==>
                 if w.cards.validateCard(Obj(fields)).Some?
                 then a.out == Ok(w.cards.validateCard(Obj(fields)).value)
                      && a.st.card == w.cards.validateCard(Obj(fields))
                      && a.st.cardV1 == st.cardV1 && a.st.cardTenant == st.cardTenant
                 else a == Step(st, Err(Malformed(Body(Obj(fields))))))
            && (a.out != Err(VersionMismatch) && "supportedInterfaces" in fields && "url" !in fields ==>
                 if w.cards.validateCardV1(Obj(fields)).Some? then a.out.Ok?
                 else a == Step(st, Err(Malformed(Body(Obj(fields))))))
            && (a.out.Err? ==> a.st == st)
  {
    OffersExactly(fields, V10);
    OffersExactly(fields, V03);
  }

  /** Nothing is adopted from JSON that is no object. */
  lemma NoObjectNoCard(w: World, st: State, raw: Json)
    requires !raw.Obj?
    ensures Adopt(w, st, raw) ==
            Step(st, Err(if w.cfg.protocol == Pinned(V10) then VersionMismatch else Malformed(Body(raw))))
  {
    assert Advertised(raw) == [];
  }

  /** The version of a card handed in is read off its own dump, in the same way, and only once. */
  lemma HandedCardVersion(w: World, st: State, card: AgentCard, fields: map<string, Json>)
    requires w.cards.dumpCard(card) == Obj(fields) && w.cfg.protocol == Auto
    ensures var s := Settle(w, st, card);
            && s.out == Ok(card) && s.st == st.(version := s.st.version)
            && s.st.version ==
                 if st.version.Some? then st.version
                 else if Versioned(fields, V10)
                         || exists i :: 0 <= i < |Items(fields)| && Endpoint(Items(fields)[i], V10)
                 then Some(V10) else Some(V03)
  {
    OffersExactly(fields, V10);
  }
}
