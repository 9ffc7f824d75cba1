/** Building the published Agent Card, and the memo table in front of the builder. */
module CardSpec {
  import opened Wrappers
  import Urls

  // ---------- sorted(registry) ----------

  predicate LexLeq(a: string, b: string) {
    a == "" || (b != "" && (a[0] < b[0] || (a[0] == b[0] && LexLeq(a[1..], b[1..]))))
  }

  lemma {:induction false} LexTotal(a: string, b: string)
    ensures LexLeq(a, b) || LexLeq(b, a)
    ensures LexLeq(a, b) && LexLeq(b, a) ==> a == b
  {
    if a != "" && b != "" {
      LexTotal(a[1..], b[1..]);
      assert a == [a[0]] + a[1..] && b == [b[0]] + b[1..];
    }
  }

  lemma {:induction false} LexTransitive(a: string, b: string, c: string)
    requires LexLeq(a, b) && LexLeq(b, c)
    ensures LexLeq(a, c)
  {
    if a != "" && a[0] == b[0] == c[0] {
      LexTransitive(a[1..], b[1..], c[1..]);
    }
  }

  predicate IsLeast(m: string, s: set<string>) {
    m in s && forall x :: x in s ==> LexLeq(m, x)
  }

  lemma {:induction false} LeastExists(s: set<string>)
    requires s != {}
    ensures exists m :: IsLeast(m, s)
  {
    var a :| a in s;
    var rest := s - {a};
    LexTotal(a, a);
    assert forall x :: x in s ==> x == a || x in rest;
    if rest == {} {
      assert IsLeast(a, s);
    } else {
      LeastExists(rest);
      var m :| IsLeast(m, rest);
      LexTotal(a, m);
      if LexLeq(m, a) {
        assert IsLeast(m, s);
      } else {
        BelowLeast(a, m, rest);
        assert IsLeast(a, s);
      }
    }
  }

  lemma BelowLeast(a: string, m: string, s: set<string>)
    requires LexLeq(a, m) && IsLeast(m, s)
    ensures forall x :: x in s ==> LexLeq(a, x)
  {
    forall x | x in s
      ensures LexLeq(a, x)
    {
      LexTransitive(a, m, x);
    }
  }

  function Least(s: set<string>): (m: string)
    requires s != {}
    ensures IsLeast(m, s)
  {
    LeastExists(s);
    assert forall a, b :: IsLeast(a, s) && IsLeast(b, s) ==> a == b by {
      forall a, b | IsLeast(a, s) && IsLeast(b, s)
        ensures a == b
      {
        LexTotal(a, b);
      }
    }
    var m :| m in s && IsLeast(m, s);
    m
  }

  function Sorted(s: set<string>): (r: seq<string>)
    ensures forall x :: x in r <==> x in s
    ensures forall i, j :: 0 <= i < j < |r| ==> r[i] != r[j] && LexLeq(r[i], r[j])
  {
    if s == {} then []
    else
      var m := Least(s);
      [m] + Sorted(s - {m})
  }

  // ---------- the card ----------

  datatype Identity = Identity(enabled: bool, byWeb: bool, domain: string)

  datatype Settings = Settings(
    baseUrl: Option<string>, published: seq<string>, authSchemes: seq<string>,
    multimodal: bool, identity: Identity, protocolVersion: string)

  datatype Inputs = Inputs(
    settings: Settings, registry: map<string, seq<string>>,
    org: Option<string>, did: Option<string>, requested: Option<string>)

  datatype Skill = Skill(
    id: string, name: string, description: string, tags: seq<string>,
    inputModes: seq<string>, outputModes: seq<string>)

  datatype Card =
    | Legacy(url: string, package: string, skills: seq<Skill>, did: Option<string>)
    | V1(url: string, package: string, skills: seq<Skill>, did: Option<string>,
         tenant: Option<string>, outputModes: seq<string>,
         schemes: Option<seq<string>>,      // the security schemes declared, by name
         requirements: Option<seq<string>>) // the alternatives a caller may meet, one scheme each

  /** Title-casing of skill ids, and the installed package version. */
  datatype Lib = Lib(titled: string -> string, package: string)

  const KNOWN_SCHEMES: set<string> := {"bearer", "mtls", "api_key"}

  function VersionOf(i: Inputs): string {
    if i.requested.GetOr("") != "" then i.requested.value else i.settings.protocolVersion
  }

  function ResolveDid(i: Inputs): Option<string> {
    if i.did.Some? then i.did
    else if i.settings.identity.enabled && i.settings.identity.byWeb && i.settings.identity.domain != ""
    then Some("did:web:" + i.settings.identity.domain)
    else None
  }

  function OutputModes(s: Settings): seq<string> {
    ["text/plain"] + if s.multimodal then ["image/png", "audio/mpeg", "video/mp4"] else []
  }

  function Keep(ids: seq<string>, registry: map<string, seq<string>>): (kept: seq<string>)
    ensures forall id :: id in kept <==> id in ids && id in registry
  {
    if ids == [] then []
    else (if ids[0] in registry then [ids[0]] else []) + Keep(ids[1..], registry)
  }

  /** The allowlist narrows what is published; an empty one publishes the whole registry, sorted. */
  function PublishedIds(i: Inputs): seq<string> {
    Keep(if i.settings.published != [] then i.settings.published else Sorted(i.registry.Keys), i.registry)
  }

  function SkillFor(lib: Lib, s: Settings, id: string, tags: seq<string>): Skill {
    Skill(id, lib.titled(id), "Prismal '" + id + "' capability exposed over A2A.", tags,
          ["text/plain"], OutputModes(s))
  }

  function SkillsFor(lib: Lib, i: Inputs, ids: seq<string>): (skills: seq<Skill>)
    requires forall id :: id in ids ==> id in i.registry
    ensures |skills| == |ids|
    ensures forall k :: 0 <= k < |ids| ==> skills[k] == SkillFor(lib, i.settings, ids[k], i.registry[ids[k]])
  {
    seq(|ids|, k requires 0 <= k < |ids| => SkillFor(lib, i.settings, ids[k], i.registry[ids[k]]))
  }

  function Skills(lib: Lib, i: Inputs): seq<Skill> {
    SkillsFor(lib, i, PublishedIds(i))
  }

  /** Known schemes, each once, in the order first named. */
  function KnownSchemes(names: seq<string>): (known: seq<string>)
    ensures forall n :: n in known <==> n in names && n in KNOWN_SCHEMES
    ensures forall a, b :: 0 <= a < b < |known| ==> known[a] != known[b]
  {
    if names == [] then []
    else
      var before := KnownSchemes(names[..|names| - 1]);
      var last := names[|names| - 1];
      if last in KNOWN_SCHEMES && last !in before then before + [last] else before
  }

  /** `names or None`. */
  function OrNone(names: seq<string>): Option<seq<string>> {
    if names == [] then None else Some(names)
  }

  function Fresh(lib: Lib, i: Inputs): Card {
    var url := Urls.CardUrl(i.settings.baseUrl, i.org);
    if VersionOf(i) == "1.0" then
      var schemes := OrNone(KnownSchemes(i.settings.authSchemes));
      V1(url, lib.package, Skills(lib, i), ResolveDid(i), i.org, OutputModes(i.settings), schemes, schemes)
    else Legacy(url, lib.package, Skills(lib, i), ResolveDid(i))
  }

  // ---------- the memo table ----------

  datatype Key = Key(
    version: string, schemes: seq<string>, org: Option<string>, baseUrl: Option<string>,
    published: seq<string>, multimodal: bool, did: Option<string>, ids: seq<string>)

  function KeyOf(i: Inputs): Key {
    Key(VersionOf(i), if VersionOf(i) == "1.0" then i.settings.authSchemes else [], i.org, i.settings.baseUrl,
        i.settings.published, i.settings.multimodal, ResolveDid(i), Sorted(i.registry.Keys))
  }

  /** A card object: its identity and its value. */
  datatype Instance = Instance(id: nat, card: Card)

  /** A cached card together with the inputs of the call that built it. */
  datatype Entry = Entry(instance: Instance, origin: Inputs)

  datatype Table = Table(entries: map<Key, Entry>, issued: nat)

  datatype TableOp = Build(inputs: Inputs) | Clear

  const EmptyTable := Table(map[], 0)

  function Filled(lib: Lib, t: Table, i: Inputs): Table {
    if KeyOf(i) in t.entries then t
    else Table(t.entries[KeyOf(i) := Entry(Instance(t.issued, Fresh(lib, i)), i)], t.issued + 1)
  }

  /** What a build call returns. */
  function Returned(lib: Lib, t: Table, i: Inputs): Instance {
    Filled(lib, t, i).entries[KeyOf(i)].instance
  }

  function TableExec(lib: Lib, t: Table, op: TableOp): Table {
    match op
    case Build(i) => Filled(lib, t, i)
    case Clear => Table(map[], t.issued)
  }

  function TableRun(lib: Lib, t: Table, ops: seq<TableOp>): Table
    decreases |ops|
  {
    if ops == [] then t else TableRun(lib, TableExec(lib, t, ops[0]), ops[1..])
  }

  // ---------- what the table guarantees ----------

  predicate TableInv(lib: Lib, t: Table) {
    forall k :: k in t.entries ==>
      var e := t.entries[k];
      e.instance.id < t.issued && KeyOf(e.origin) == k && e.instance.card == Fresh(lib, e.origin)
  }

  lemma {:induction false} TableRunKeeps(lib: Lib, t: Table, ops: seq<TableOp>)
    requires TableInv(lib, t)
    ensures TableInv(lib, TableRun(lib, t, ops)) && t.issued <= TableRun(lib, t, ops).issued
    decreases |ops|
  {
    if ops != [] {
      TableRunKeeps(lib, TableExec(lib, t, ops[0]), ops[1..]);
    }
  }

  lemma {:induction false} KeepSame(ids: seq<string>, r: map<string, seq<string>>, s: map<string, seq<string>>)
    requires r.Keys == s.Keys
    ensures Keep(ids, r) == Keep(ids, s)
  {
    if ids != [] {
      KeepSame(ids[1..], r, s);
      assert ids[0] in r <==> ids[0] in r.Keys;
      assert ids[0] in s <==> ids[0] in s.Keys;
    }
  }

  lemma SameKeySameIds(i: Inputs, j: Inputs)
    requires KeyOf(i) == KeyOf(j)
    ensures i.registry.Keys == j.registry.Keys && PublishedIds(i) == PublishedIds(j)
  {
    forall x
      ensures x in i.registry.Keys <==> x in j.registry.Keys
    {
      assert x in i.registry.Keys <==> x in KeyOf(i).ids;
      assert x in j.registry.Keys <==> x in KeyOf(j).ids;
    }
    var ids := if i.settings.published != [] then i.settings.published else Sorted(i.registry.Keys);
    KeepSame(ids, i.registry, j.registry);
  }

  /**
   Two builds share a cache entry exactly when they agree on version, org, base URL, allowlist,
   modalities, DID and registered ids -- and, for 1.0, on the authentication schemes.
   */
  lemma SharesEntryExactly(i: Inputs, j: Inputs)
    ensures KeyOf(i) == KeyOf(j) <==>
            && VersionOf(i) == VersionOf(j) && i.org == j.org && i.settings.baseUrl == j.settings.baseUrl
            && i.settings.published == j.settings.published && i.settings.multimodal == j.settings.multimodal
            && ResolveDid(i) == ResolveDid(j) && i.registry.Keys == j.registry.Keys
            && (VersionOf(i) == "1.0" ==> i.settings.authSchemes == j.settings.authSchemes)
  {
    if KeyOf(i) == KeyOf(j) {
      SameKeySameIds(i, j);
    }
  }

  function EraseTags(skills: seq<Skill>): seq<Skill> {
    seq(|skills|, k requires 0 <= k < |skills| => skills[k].(tags := []))
  }

  /** The card with every skill's tags blanked. */
  function Untagged(c: Card): Card {
    c.(skills := EraseTags(c.skills))
  }

  /** Both registries give every published skill the same tags. */
  predicate TagsAgree(i: Inputs, j: Inputs) {
    forall id :: id in PublishedIds(i) ==> id in i.registry && id in j.registry && i.registry[id] == j.registry[id]
  }

  /** Equal keys mean equal cards up to tags, and equal cards exactly when the published tags agree. */
  lemma SameKeyCards(lib: Lib, i: Inputs, j: Inputs)
    requires KeyOf(i) == KeyOf(j)
    ensures Untagged(Fresh(lib, i)) == Untagged(Fresh(lib, j))
    ensures Fresh(lib, i) == Fresh(lib, j) <==> TagsAgree(i, j)
  {
    SameKeySameIds(i, j);
    var ids, a, b := PublishedIds(i), Skills(lib, i), Skills(lib, j);
    assert forall k :: 0 <= k < |ids| ==> ids[k] in ids;
    assert EraseTags(a) == EraseTags(b);
    assert a == b <==> TagsAgree(i, j) by {
      if a == b {
        forall id | id in ids
          ensures i.registry[id] == j.registry[id]
        {
          var k :| 0 <= k < |ids| && ids[k] == id;
          assert a[k].tags == b[k].tags;
        }
      }
    }
    assert Fresh(lib, i).skills == a && Fresh(lib, j).skills == b;
  }

  /**
   Over any sequence of builds and clears, a build returns a card equal to a fresh one in every
   field except skill tags, and equal throughout exactly when the published skills' tags are
   what they were when the entry was filled.
   */
  lemma CachedCardIsFreshUpToTags(lib: Lib, ops: seq<TableOp>, i: Inputs)
    ensures var t := TableRun(lib, EmptyTable, ops);
            var card := Returned(lib, t, i).card;
            && card.(skills := []) == Fresh(lib, i).(skills := [])
            && |card.skills| == |Fresh(lib, i).skills|
            && (forall k :: 0 <= k < |card.skills| ==>
                 card.skills[k].(tags := []) == Fresh(lib, i).skills[k].(tags := []))
            && (card == Fresh(lib, i) <==> KeyOf(i) !in t.entries || TagsAgree(i, t.entries[KeyOf(i)].origin))
  {
    TableRunKeeps(lib, EmptyTable, ops);
    var t := TableRun(lib, EmptyTable, ops);
    var origin := if KeyOf(i) in t.entries then t.entries[KeyOf(i)].origin else i;
    assert Returned(lib, t, i).card == Fresh(lib, origin);
    SameKeyCards(lib, i, origin);
    SameUpToTags(Fresh(lib, origin), Fresh(lib, i));
  }

  lemma SameUpToTags(a: Card, b: Card)
    requires Untagged(a) == Untagged(b)
    ensures a.(skills := []) == b.(skills := []) && |a.skills| == |b.skills|
    ensures forall k :: 0 <= k < |a.skills| ==> a.skills[k].(tags := []) == b.skills[k].(tags := [])
  {
    assert Untagged(a).skills == EraseTags(a.skills) && Untagged(b).skills == EraseTags(b.skills);
    assert forall k :: 0 <= k < |a.skills| ==> EraseTags(a.skills)[k] == a.skills[k].(tags := []);
    assert forall k :: 0 <= k < |b.skills| ==> EraseTags(b.skills)[k] == b.skills[k].(tags := []);
    assert a.(skills := []) == Untagged(a).(skills := []);
    assert b.(skills := []) == Untagged(b).(skills := []);
  }

  /** The first of a list of names to be `n`. */
  predicate FirstAt(names: seq<string>, n: string, i: nat) {
    i < |names| && names[i] == n && n !in names[..i]
  }

  lemma FirstAtIsFirst(names: seq<string>, n: string, i: nat, k: nat)
    requires FirstAt(names, n, i) && k < |names| && names[k] == n
    ensures i <= k
  {
    assert forall x :: 0 <= x < i ==> names[..i][x] == names[x];
  }

  /** Schemes come in the order in which they are first named. */
  lemma {:induction false} SchemesInOrder(names: seq<string>, a: nat, b: nat, i: nat, j: nat)
    requires var known := KnownSchemes(names);
             a < b < |known| && FirstAt(names, known[a], i) && FirstAt(names, known[b], j)
    ensures i < j
  {
    var n := |names| - 1;
    var init, before, known := names[..n], KnownSchemes(names[..n]), KnownSchemes(names);
    assert known[a] == before[a] && before[a] in init;
    var k :| 0 <= k < n && init[k] == before[a];
    FirstAtIsFirst(names, known[a], i, k);
    if b < |before| {
      assert known[b] == before[b] && before[b] in init;
      var l :| 0 <= l < n && init[l] == before[b];
      FirstAtIsFirst(names, known[b], j, l);
      assert init[..i] == names[..i] && init[..j] == names[..j];
      SchemesInOrder(init, a, b, i, j);
    } else {
      assert known[b] == names[n] && known[b] !in before;
      forall x | 0 <= x < n ensures init[x] != names[n] {
        assert init[x] in init;
        assert init[x] in KNOWN_SCHEMES ==> init[x] in before;
      }
    }
  }

  /** What a fresh card of either version says, field by field. */
  lemma FreshCardSays(lib: Lib, i: Inputs)
    ensures var (card, identity) := (Fresh(lib, i), i.settings.identity);
            var media := if i.settings.multimodal then ["image/png", "audio/mpeg", "video/mp4"] else [];
            && (card.V1? <==> if i.requested == None || i.requested == Some("") then i.settings.protocolVersion == "1.0"
                              else i.requested == Some("1.0"))
            && card.package == lib.package
            && (i.did.Some? ==> card.did == i.did)
            && (i.did.None? ==>
                 card.did == if identity.enabled && identity.byWeb && identity.domain != ""
                             then Some("did:web:" + identity.domain) else None)
            && (card.V1? ==>
                 card.tenant == i.org && card.outputModes[..1] == ["text/plain"] && card.outputModes[1..] == media)
            && (forall id | id in i.registry && (i.settings.published == [] || id in i.settings.published) ::
                 exists k :: 0 <= k < |card.skills| && card.skills[k].id == id && card.skills[k].tags == i.registry[id])
            && (forall k :: 0 <= k < |card.skills| ==>
                 var s := card.skills[k];
                 && s.id in i.registry && s.tags == i.registry[s.id] && s.name == lib.titled(s.id)
                 && (i.settings.published != [] ==> s.id in i.settings.published)
                 && s.inputModes == ["text/plain"]
                 && s.outputModes[..1] == ["text/plain"] && s.outputModes[1..] == media
                 && s.description == "Prismal '" + s.id + "' capability exposed over A2A.")
  {
    var ids, card := PublishedIds(i), Fresh(lib, i);
    forall id | id in i.registry && (i.settings.published == [] || id in i.settings.published)
      ensures exists k :: 0 <= k < |card.skills| && card.skills[k].id == id && card.skills[k].tags == i.registry[id]
    {
      assert id in ids;
      var k :| 0 <= k < |ids| && ids[k] == id;
      assert card.skills[k] == SkillFor(lib, i.settings, id, i.registry[id]);
    }
    assert forall k :: 0 <= k < |ids| ==> ids[k] in ids;
  }

  /** A run is its operations one after the other. */
  lemma {:induction false} TableRunStep(lib: Lib, t: Table, ops: seq<TableOp>, op: TableOp)
    ensures TableRun(lib, t, []) == t
    ensures TableRun(lib, t, ops + [op]) == TableExec(lib, TableRun(lib, t, ops), op)
    decreases |ops|
  {
    if ops == [] {
      assert [] + [op] == [op] && [op][1..] == [];
      assert TableRun(lib, t, [op]) == TableRun(lib, TableExec(lib, t, op), [op][1..]);
    } else {
      assert (ops + [op])[0] == ops[0] && (ops + [op])[1..] == ops[1..] + [op];
      TableRunStep(lib, TableExec(lib, t, ops[0]), ops[1..], op);
    }
  }

  /** The documented promise fails for tags: a registry retagged between two builds is served stale. */
  lemma StaleTagsServed(lib: Lib, s: Settings, id: string, tags: seq<string>, retagged: seq<string>)
    requires s.published == [] && tags != retagged
    ensures var i := Inputs(s, map[id := tags], None, None, None);
            var j := i.(registry := map[id := retagged]);
            Returned(lib, TableRun(lib, EmptyTable, [Build(i)]), j).card != Fresh(lib, j)
  {
    var i := Inputs(s, map[id := tags], None, None, None);
    var j := i.(registry := map[id := retagged]);
    assert i.registry.Keys == {id} == j.registry.Keys;
    assert KeyOf(i) == KeyOf(j);
    SameKeyCards(lib, i, j);
    assert id in Sorted(i.registry.Keys) && id in PublishedIds(i);
    var t := TableExec(lib, EmptyTable, Build(i));
    assert TableRun(lib, EmptyTable, [Build(i)]) == TableRun(lib, t, []) == t;
  }

  lemma {:induction false} EntryStays(lib: Lib, t: Table, ops: seq<TableOp>, k: Key)
    requires k in t.entries && Clear !in ops
    ensures k in TableRun(lib, t, ops).entries && TableRun(lib, t, ops).entries[k] == t.entries[k]
    decreases |ops|
  {
    if ops != [] {
      assert ops[0] in ops;
      EntryStays(lib, TableExec(lib, t, ops[0]), ops[1..], k);
    }
  }

  lemma {:induction false} ClearedIdsAreNew(lib: Lib, t: Table, ops: seq<TableOp>, bound: nat)
    requires TableInv(lib, t) && bound <= t.issued
    requires (forall k :: k in t.entries ==> bound <= t.entries[k].instance.id) || Clear in ops
    ensures forall k :: k in TableRun(lib, t, ops).entries ==> bound <= TableRun(lib, t, ops).entries[k].instance.id
    decreases |ops|
  {
    if ops != [] {
      var u := TableExec(lib, t, ops[0]);
      TableRunKeeps(lib, t, [ops[0]]);
      assert TableRun(lib, t, [ops[0]]) == TableRun(lib, u, []) == u;
      ClearedIdsAreNew(lib, u, ops[1..], bound);
    }
  }

  /**
   Two builds with the same key return the same object exactly when the cache was not cleared in
   between -- in particular identical inputs do.
   */
  lemma SameInstanceUntilCleared(lib: Lib, before: seq<TableOp>, between: seq<TableOp>, i: Inputs, j: Inputs)
    requires KeyOf(i) == KeyOf(j)
    ensures var t := TableRun(lib, EmptyTable, before);
            var u := TableRun(lib, Filled(lib, t, i), between);
            && (Clear !in between ==> Returned(lib, u, j) == Returned(lib, t, i))
            && (Clear in between ==> Returned(lib, u, j).id != Returned(lib, t, i).id)
  {
    TableRunKeeps(lib, EmptyTable, before);
    var t := TableRun(lib, EmptyTable, before);
    var f := Filled(lib, t, i);
    if Clear !in between {
      EntryStays(lib, f, between, KeyOf(i));
    } else {
      ClearedIdsAreNew(lib, f, between, f.issued);
      TableRunKeeps(lib, f, between);
    }
  }

  /**
   Both protocol versions publish the same agent: same URL, package version, skills and DID. The
   1.0 card declares exactly the configured schemes that are known, and requires one of them.
   */
  lemma VersionsPublishTheSame(lib: Lib, i: Inputs)
    ensures var (a, b) := (Fresh(lib, i.(requested := Some("0.3"))), Fresh(lib, i.(requested := Some("1.0"))));
            && a.Legacy? && b.V1?
            && a == Legacy(b.url, b.package, b.skills, b.did)
            && b.tenant == i.org
            && (forall id :: id in PublishedIds(i) <==> exists k :: 0 <= k < |b.skills| && b.skills[k].id == id)
            && b.requirements == b.schemes
            && (b.schemes.None? <==> forall n :: n in i.settings.authSchemes ==> n !in KNOWN_SCHEMES)
            && (b.schemes.Some? ==>
                 forall n :: n in b.schemes.value <==> n in i.settings.authSchemes && n in KNOWN_SCHEMES)
  {
    var j := i.(requested := Some("1.0"));
    var ids := PublishedIds(j);
    assert ids == PublishedIds(i) == PublishedIds(i.(requested := Some("0.3")));
    var skills := Skills(lib, j);
    forall id | id in ids
      ensures exists k :: 0 <= k < |skills| && skills[k].id == id
    {
      var k :| 0 <= k < |ids| && ids[k] == id;
      assert skills[k].id == id;
    }
    assert forall k :: 0 <= k < |skills| ==> skills[k].id == ids[k] && ids[k] in ids;
    var known := KnownSchemes(i.settings.authSchemes);
    assert known != [] ==> known[0] in known;
  }
}
