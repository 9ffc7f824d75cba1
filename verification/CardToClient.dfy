/** A card published by this side, discovered and adopted by the client of the other side. */
module CardToClient {
  import opened Wrappers
  import opened Json
  import opened Negotiation
  import Urls
  import Cards = CardSpec
  import opened ClientSpec

  function Strings(ss: seq<string>): Json {
    Arr(seq(|ss|, i requires 0 <= i < |ss| => Str(ss[i])))
  }

  function WireInterface(url: string, tenant: Option<string>): Json {
    var iface := map["url" := Str(url), "protocolBinding" := Str(JSONRPC), "protocolVersion" := Str("1.0")];
    Obj(if tenant.Some? then iface["tenant" := Str(tenant.value)] else iface)
  }

  function WireSkill(s: Cards.Skill): Json {
    Obj(map["id" := Str(s.id), "name" := Str(s.name), "description" := Str(s.description), "tags" := Strings(s.tags),
            "inputModes" := Strings(s.inputModes), "outputModes" := Strings(s.outputModes)])
  }

  function ReadStrings(raw: Json): Option<seq<string>> {
    if raw.Arr? && forall i :: 0 <= i < |raw.items| ==> raw.items[i].Str?
    then Some(seq(|raw.items|, i requires 0 <= i < |raw.items| => raw.items[i].text)) else None
  }

  /** A reader of published skills. */
  function ReadSkill(raw: Json): Option<Cards.Skill> {
    var (id, name, description) := (raw.GetStr("id"), raw.GetStr("name"), raw.GetStr("description"));
    var tags := ReadStrings(raw.Get("tags").GetOr(Null));
    var inputs := ReadStrings(raw.Get("inputModes").GetOr(Null));
    var outputs := ReadStrings(raw.Get("outputModes").GetOr(Null));
    if id.Some? && name.Some? && description.Some? && tags.Some? && inputs.Some? && outputs.Some?
    then Some(Cards.Skill(id.value, name.value, description.value, tags.value, inputs.value, outputs.value)) else None
  }

  lemma StringsRoundTrip(ss: seq<string>)
    ensures ReadStrings(Strings(ss)) == Some(ss)
  {
    assert forall i :: 0 <= i < |ss| ==> Strings(ss).items[i] == Str(ss[i]);
    assert ReadStrings(Strings(ss)).value == ss;
  }

  /** A published skill reads back as itself. */
  lemma SkillRoundTrips(s: Cards.Skill)
    ensures ReadSkill(WireSkill(s)) == Some(s)
  {
    StringsRoundTrip(s.tags);
    StringsRoundTrip(s.inputModes);
    StringsRoundTrip(s.outputModes);
    var raw := WireSkill(s);
    assert raw.GetStr("id") == Some(s.id) && raw.GetStr("name") == Some(s.name);
    assert raw.GetStr("description") == Some(s.description);
  }

  function WireSkills(skills: seq<Cards.Skill>): Json {
    Arr(seq(|skills|, i requires 0 <= i < |skills| => WireSkill(skills[i])))
  }

  function WireScheme(name: string): Json {
    if name == "bearer" then Obj(map["httpAuthSecurityScheme" := Obj(map["scheme" := Str("Bearer")])])
    else if name == "mtls" then Obj(map["mtlsSecurityScheme" := Obj(map[])])
    else Obj(map["apiKeySecurityScheme" := Obj(map["location" := Str("header"), "name" := Str("X-API-Key")])])
  }

  /** Each known scheme declares what a caller has to present. */
  lemma SchemesDeclared()
    ensures WireScheme("bearer").Get("httpAuthSecurityScheme").GetOr(Null).GetStr("scheme") == Some("Bearer")
    ensures WireScheme("mtls").Get("mtlsSecurityScheme").Some?
    ensures var key := WireScheme("api_key").Get("apiKeySecurityScheme").GetOr(Null);
            key.GetStr("location") == Some("header") && key.GetStr("name") == Some("X-API-Key")
  {
  }

  /** Any one of the schemes will do, without scopes. */
  function WireRequirements(names: seq<string>): seq<Json> {
    seq(|names|, i requires 0 <= i < |names| =>
      Obj(map["schemes" := Obj(map[names[i] := Obj(map["list" := Arr([])])])]))
  }

  /** The `i`-th requirement is the `i`-th scheme alone, without scopes. */
  lemma RequirementsNameSchemes(names: seq<string>, i: nat)
    requires i < |names|
    ensures |WireRequirements(names)| == |names|
    ensures var schemes := WireRequirements(names)[i].Get("schemes").GetOr(Null);
            && schemes.Obj? && schemes.fields.Keys == {names[i]}
            && schemes.Get(names[i]).value.Get("list") == Some(Arr([]))
  {
  }

  /** A field that is dropped when unset. */
  function Optional(key: string, value: Option<Json>): (m: map<string, Json>)
    ensures m.Keys <= {key}
  {
    if value.Some? then map[key := value.value] else map[]
  }

  /** Negotiation reads nothing of these fields. */
  predicate Unread(m: map<string, Json>) {
    "url" !in m && "protocolVersion" !in m && "supportedInterfaces" !in m
  }

  /** These fields say nothing the two versions have in common. */
  predicate Plain(m: map<string, Json>) {
    "name" !in m && "version" !in m && "skills" !in m && "description" !in m && "did" !in m
  }

  /** The fields both versions have, with the card's own values. */
  predicate CarriesCommon(card: Cards.Card, m: map<string, Json>) {
    && "name" in m && "version" in m && "skills" in m && "description" in m
    && m["name"] == Str("prismal") && m["version"] == Str(card.package) && m["skills"] == WireSkills(card.skills)
    && ("did" in m <==> card.did.Some?) && (card.did.Some? ==> m["did"] == Str(card.did.value))
  }

  function Common(card: Cards.Card): (m: map<string, Json>)
    ensures Unread(m)
    ensures "securityRequirements" !in m && CarriesCommon(card, m)
  {
    map["name" := Str("prismal"), "version" := Str(card.package), "skills" := WireSkills(card.skills),
        "description" := Str("Prismal multi-agent framework exposed over A2A.")]
    + Optional("did", if card.did.Some? then Some(Str(card.did.value)) else None)
  }

  function Modes(outputs: seq<string>): (m: map<string, Json>)
    ensures Unread(m) && Plain(m) && "capabilities" in m && "defaultInputModes" in m && "defaultOutputModes" in m
    ensures m["defaultOutputModes"] == Strings(outputs) && m["defaultInputModes"] == Strings(["text/plain"])
    ensures m["capabilities"].Get("streaming") == Some(Bool(true))
    ensures m["capabilities"].Get("pushNotifications") == Some(Bool(false))
    ensures "securityRequirements" !in m && "securitySchemes" !in m
  {
    map["capabilities" := Obj(map["streaming" := Bool(true), "pushNotifications" := Bool(false)]),
        "defaultInputModes" := Strings(["text/plain"]), "defaultOutputModes" := Strings(outputs)]
  }

  function Security(schemes: Option<seq<string>>, requirements: Option<seq<string>>): (m: map<string, Json>)
    ensures Unread(m) && Plain(m)
    ensures "capabilities" !in m && "defaultInputModes" !in m && "defaultOutputModes" !in m
    ensures "securityRequirements" in m <==> requirements.Some?
    ensures requirements.Some? ==> m["securityRequirements"] == Arr(WireRequirements(requirements.value))
    ensures "securitySchemes" in m <==> schemes.Some?
    ensures schemes.Some? ==>
              forall n :: n in schemes.value ==> m["securitySchemes"].Get(n) == Some(WireScheme(n))
  {
    Optional("securitySchemes",
             if schemes.Some? then Some(Obj(map n | n in schemes.value :: WireScheme(n))) else None)
    + Optional("securityRequirements",
               if requirements.Some? then Some(Arr(WireRequirements(requirements.value))) else None)
  }

  function LegacyDefaults(): (m: map<string, Json>)
    ensures Unread(m) && Plain(m) && "capabilities" in m && "securitySchemes" in m
    ensures m["capabilities"].Get("streaming") == Some(Bool(true)) && m["securitySchemes"] == Obj(map[])
  {
    map["capabilities" := Obj(map["streaming" := Bool(true)]), "securitySchemes" := Obj(map[])]
  }

  /** The fields of a card that negotiation does not read. */
  function Details(card: Cards.Card): (m: map<string, Json>)
    ensures Unread(m)
  {
    match card
    case Legacy(_, _, _, _) => Common(card) + LegacyDefaults()
    case V1(_, _, _, _, _, modes, schemes, requirements) =>
      Common(card) + Modes(modes) + Security(schemes, requirements)
  }

  function LegacyEndpoint(url: string): (m: map<string, Json>)
    ensures Plain(m) && "url" in m && m["url"] == Str(url)
  {
    map["url" := Str(url), "protocolVersion" := Str("0.3.0")]
  }

  function V1Endpoint(url: string, tenant: Option<string>): (m: map<string, Json>)
    ensures Plain(m) && "supportedInterfaces" in m
    ensures "capabilities" !in m && "defaultInputModes" !in m && "defaultOutputModes" !in m
    ensures "securityRequirements" !in m && "securitySchemes" !in m
  {
    map["supportedInterfaces" := Arr([WireInterface(url, tenant)])]
  }

  /** The wire form of a card; unset optional fields are dropped. */
  function Wire(card: Cards.Card): Json {
    match card
    case Legacy(url, _, _, _) => Obj(Details(card) + LegacyEndpoint(url))
    case V1(url, _, _, _, tenant, _, _, _) => Obj(Details(card) + V1Endpoint(url, tenant))
  }

  lemma KnownVersionTexts()
    ensures NormalizeVersion(Str("1.0")) == Some(V10)
    ensures NormalizeVersion(Str("0.3.0")) == Some(V03)
  {
    NormalizesToOne("1.0");
    assert Strip("1.0") == "1.0";
    assert "1.0"[..2] == "1.";
    NormalizesToLegacy("0.3.0");
    assert Strip("0.3.0") == "0.3.0";
    assert "0.3.0"[..4] == "0.3.";
  }

  lemma WireInterfaceOffer(url: string, tenant: Option<string>)
    ensures InterfaceOffer(WireInterface(url, tenant)) == Some(Offer(V10, Some(url), tenant))
    ensures InterfaceOffers([WireInterface(url, tenant)]) == [Offer(V10, Some(url), tenant)]
  {
    KnownVersionTexts();
    var iface := WireInterface(url, tenant);
    assert iface.GetStr("url") == Some(url) && iface.GetStr("tenant") == tenant;
    assert iface.Get("protocolVersion") == Some(Str("1.0")) && iface.Get("protocolBinding") == Some(Str(JSONRPC));
    assert [iface][1..] == [];
  }

  lemma WireAdvertisesV1(details: map<string, Json>, url: string, tenant: Option<string>)
    requires "url" !in details && "protocolVersion" !in details
    ensures var raw := Obj(details + V1Endpoint(url, tenant));
            Advertised(raw) == [Offer(V10, Some(url), tenant)] && IsV1Shape(raw)
  {
    var raw := Obj(details + V1Endpoint(url, tenant));
    WireInterfaceOffer(url, tenant);
    assert raw.Get("protocolVersion").None? && raw.Get("url").None?;
    assert raw.Get("supportedInterfaces") == Some(Arr([WireInterface(url, tenant)]));
    assert NormalizeVersion(Null).None?;
  }

  lemma WireAdvertisesLegacy(details: map<string, Json>, url: string)
    requires "supportedInterfaces" !in details
    ensures var raw := Obj(details + LegacyEndpoint(url));
            Advertised(raw) == [Offer(V03, Some(url), None)] && !IsV1Shape(raw)
  {
    var raw := Obj(details + LegacyEndpoint(url));
    KnownVersionTexts();
    assert raw.Get("supportedInterfaces").None?;
    assert raw.Get("protocolVersion") == Some(Str("0.3.0")) && raw.GetStr("url") == Some(url);
  }

  /** Each published card advertises exactly one endpoint: its own URL, version and tenant. */
  lemma WireAdvertises(card: Cards.Card)
    ensures Advertised(Wire(card)) ==
      if card.V1? then [Offer(V10, Some(card.url), card.tenant)] else [Offer(V03, Some(card.url), None)]
    ensures IsV1Shape(Wire(card)) <==> card.V1?
  {
    if card.V1? {
      WireAdvertisesV1(Details(card), card.url, card.tenant);
    } else {
      WireAdvertisesLegacy(Details(card), card.url);
    }
  }

  /** Fields put beside others keep their values. */
  lemma CommonStays(card: Cards.Card, common: map<string, Json>, more: map<string, Json>)
    requires CarriesCommon(card, common) && Plain(more)
    ensures CarriesCommon(card, common + more)
  {
  }

  /** A published card of either version carries its name, package version, skills and DID, and a 0.3 card its URL. */
  lemma WireCarriesCard(card: Cards.Card)
    ensures CarriesCommon(card, Wire(card).fields)
    ensures card.Legacy? ==> Wire(card).GetStr("url") == Some(card.url)
    ensures card.Legacy? ==> Wire(card).Get("capabilities").GetOr(Null).Get("streaming") == Some(Bool(true))
  {
    if card.V1? {
      CommonStays(card, Common(card), Modes(card.outputModes));
      CommonStays(card, Common(card) + Modes(card.outputModes), Security(card.schemes, card.requirements));
      CommonStays(card, Details(card), V1Endpoint(card.url, card.tenant));
    } else {
      CommonStays(card, Common(card), LegacyDefaults());
      CommonStays(card, Details(card), LegacyEndpoint(card.url));
    }
  }

  /** A 1.0 card carries every other field its wire model requires, and its security requirements when it has any. */
  lemma WireCarriesV1(card: Cards.Card)
    requires card.V1?
    ensures var m := Wire(card).fields;
            && "supportedInterfaces" in m && "capabilities" in m && "defaultInputModes" in m
            && "defaultOutputModes" in m && m["defaultOutputModes"] == Strings(card.outputModes)
            && m["defaultInputModes"] == Strings(["text/plain"])
            && m["capabilities"].Get("streaming") == Some(Bool(true))
            && m["capabilities"].Get("pushNotifications") == Some(Bool(false))
            && ("securityRequirements" in m <==> card.requirements.Some?)
            && (card.requirements.Some? ==> m["securityRequirements"] == Arr(WireRequirements(card.requirements.value)))
  {
    var endpoint := V1Endpoint(card.url, card.tenant);
    assert Wire(card).fields == Details(card) + endpoint;
  }

  /** Adopting a card that advertises one endpoint, in the shape of its version. */
  lemma AdoptsOnlyOffer(w: World, st: State, raw: Json, offer: Offer)
    requires Advertised(raw) == [offer] && (IsV1Shape(raw) <==> offer.version == V10)
    requires offer.version == V03 ==> raw.Obj? && w.cards.validateCard(raw).Some?
    requires offer.version == V10 ==> w.cards.validateCardV1(raw).Some? && raw.GetStr("url").None?
    ensures var a := Adopt(w, st, raw);
            var usable := offer.url.GetOr("") != "";
            && (a.out.Ok? <==> w.cfg.protocol == Auto || w.cfg.protocol == Pinned(offer.version))
            && (a.out.Ok? && offer.version == V03 ==>
                 a.st == st.(version := Some(V03), card := w.cards.validateCard(raw)))
            && (a.out.Ok? && offer.version == V10 ==>
                 && a.st.version == Some(V10) && a.st.cardV1 == w.cards.validateCardV1(raw)
                 && a.st.card == Some(a.out.value) && a.out.value.url == offer.url.GetOr("")
                 && a.st.cardTenant == if usable then offer.tenant else None)
  {
    var v := offer.version;
    assert offer in Advertised(raw);
    assert Offers(raw, v);
    assert forall o :: o in Advertised(raw) ==> o.version == v;
    assert FirstUsable([offer], v) == if offer.url.GetOr("") != "" then Some(offer) else FirstUsable([offer][1..], v);
    assert FirstUsable([offer][1..], v) == None;
  }

  /** The validator of the card's own version accepts its wire form, and a 0.3 one reads its URL. */
  predicate ReadsOwnCard(w: World, card: Cards.Card, raw: Json) {
    if card.V1? then w.cards.validateCardV1(raw).Some?
    else w.cards.validateCard(raw).Some? && w.cards.validateCard(raw).value.url == card.url
  }

  /** The outcome of adopting a published card. */
  predicate AdoptedFrom(w: World, card: Cards.Card, a: Step<AgentCard>) {
    var v := if card.V1? then V10 else V03;
    && (a.out.Ok? <==> w.cfg.protocol == Auto || w.cfg.protocol == Pinned(v))
    && (a.out.Ok? ==>
         && a.st.version == Some(v) && a.st.card == Some(a.out.value) && a.out.value.url == card.url
         && (card.V1? ==> (a.st.cardTenant == card.tenant <==> card.url != "" || card.tenant.None?)))
  }

  lemma AdoptsPublished(w: World, st: State, card: Cards.Card, raw: Json)
    requires raw.Obj? && (IsV1Shape(raw) <==> card.V1?) && ReadsOwnCard(w, card, raw)
    requires Advertised(raw) ==
      if card.V1? then [Offer(V10, Some(card.url), card.tenant)] else [Offer(V03, Some(card.url), None)]
    ensures AdoptedFrom(w, card, Adopt(w, st, raw))
    ensures Adopt(w, st, raw).out.Ok? && card.V1? ==>
              && Adopt(w, st, raw).st.cardV1 == w.cards.validateCardV1(raw)
              && Adopt(w, st, raw).st.cardTenant == if card.url != "" then card.tenant else None
  {
    var offer := if card.V1? then Offer(V10, Some(card.url), card.tenant) else Offer(V03, Some(card.url), None);
    AdoptsOnlyOffer(w, st, raw, offer);
  }

  /**
   A client that discovers our own card speaks the version the card was published in. From a 1.0
   card it adopts our URL and our org as tenant -- unless both base URL and org are empty, when
   no endpoint is usable and the tenant is lost with it. Pinned to the other version it refuses.
   Each version's validator only has to accept that version's own cards.
   */
  lemma PublishedCardRoundTrips(w: World, st: State, lib: Cards.Lib, i: Cards.Inputs)
    ensures var (card, v) := (Cards.Fresh(lib, i), if Cards.VersionOf(i) == "1.0" then V10 else V03);
            var a := Adopt(w, st, Wire(card));
            ReadsOwnCard(w, card, Wire(card)) ==>
              && (a.out.Ok? <==> w.cfg.protocol == Auto || w.cfg.protocol == Pinned(v))
              && (a.out.Ok? ==>
                   && a.st.version == Some(v) && a.st.card == Some(a.out.value)
                   && a.out.value.url == Urls.CardUrl(i.settings.baseUrl, i.org)
                   && (v == V10 ==> (a.st.cardTenant == i.org <==> a.out.value.url != "" || i.org.None?)))
  {
    var card := Cards.Fresh(lib, i);
    assert card.url == Urls.CardUrl(i.settings.baseUrl, i.org) && (card.V1? ==> card.tenant == i.org);
    if ReadsOwnCard(w, card, Wire(card)) {
      WireAdvertises(card);
      AdoptsPublished(w, st, card, Wire(card));
    }
  }

  /**
   When the client's reading of a 1.0 card's security requirements is what was written, a client
   without auth of its own counts as sending credentials -- so its RPC URL is guarded -- exactly
   when we published a scheme.
   */
  lemma PublishedSchemesGuard(w: World, st: State, lib: Cards.Lib, i: Cards.Inputs)
    requires Cards.VersionOf(i) == "1.0" && w.cfg.auth.scheme == NoAuth
    ensures var card := Cards.Fresh(lib, i);
            var (read, a) := (w.cards.validateCardV1(Wire(card)), Adopt(w, st, Wire(card)));
            var own := WireRequirements(card.requirements.GetOr([]));
            read.Some? && read.value.securityRequirements == own && a.out.Ok? ==>
              (SendsCredentials(w.cfg, a.st) <==>
               exists n :: n in i.settings.authSchemes && n in Cards.KNOWN_SCHEMES)
  {
    var card := Cards.Fresh(lib, i);
    if ReadsOwnCard(w, card, Wire(card)) {
      WireAdvertises(card);
      AdoptsPublished(w, st, card, Wire(card));
      var known := Cards.KnownSchemes(i.settings.authSchemes);
      assert known != [] ==> known[0] in known;
    }
  }

  /** The empty org of a card without a base URL is published as a tenant and not adopted. */
  lemma EmptyTenantIsLost(w: World, st: State, lib: Cards.Lib, settings: Cards.Settings)
    requires settings.baseUrl == None && w.cfg.protocol == Auto
    ensures var card := Cards.Fresh(lib, Cards.Inputs(settings, map[], Some(""), None, Some("1.0")));
            var a := Adopt(w, st, Wire(card));
            && card.tenant == Some("")
            && (w.cards.validateCardV1(Wire(card)).Some? ==> a.out.Ok? && a.st.cardTenant == None)
  {
    var card := Cards.Fresh(lib, Cards.Inputs(settings, map[], Some(""), None, Some("1.0")));
    if ReadsOwnCard(w, card, Wire(card)) {
      WireAdvertises(card);
      AdoptsPublished(w, st, card, Wire(card));
    }
  }
}
