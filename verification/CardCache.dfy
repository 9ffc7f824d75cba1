/** The module-level card cache and the builder loops, refining the card specification. */
module CardCaches {
  import Spec = CardSpec

  class CardCache {
    const lib: Spec.Lib
    var cache: map<Spec.Key, Spec.Instance>
    var issued: nat
    // For each entry, the inputs of the call that filled it.
    ghost var origins: map<Spec.Key, Spec.Inputs>

    ghost predicate Valid()
      reads this
    {
      origins.Keys == cache.Keys
    }

    ghost function View(): Spec.Table
      requires Valid()
      reads this
    {
      Spec.Table(map k | k in cache :: Spec.Entry(cache[k], origins[k]), issued)
    }

    constructor (lib: Spec.Lib)
      ensures Valid() && View() == Spec.EmptyTable && this.lib == lib
    {
      this.lib := lib;
      cache, issued, origins := map[], 0, map[];
    }

    method ClearAgentCardCache()
      requires Valid()
      modifies this
      ensures Valid() && View() == Spec.TableExec(lib, old(View()), Spec.Clear)
    {
      cache, origins := map[], map[];
    }

    /** The loop's own account of the skills built from `ids`. */
    static ghost function SkillsSoFar(lib: Spec.Lib, i: Spec.Inputs, ids: seq<string>): seq<Spec.Skill> {
      if ids == [] then []
      else
        var (before, id) := (SkillsSoFar(lib, i, ids[..|ids| - 1]), ids[|ids| - 1]);
        if id in i.registry then before + [Spec.SkillFor(lib, i.settings, id, i.registry[id])] else before
    }

    static lemma {:induction false} SoFarIsAll(lib: Spec.Lib, i: Spec.Inputs, ids: seq<string>)
      ensures SkillsSoFar(lib, i, ids) == Spec.SkillsFor(lib, i, Spec.Keep(ids, i.registry))
    {
      if ids != [] {
        var init, id := ids[..|ids| - 1], ids[|ids| - 1];
        SoFarIsAll(lib, i, init);
        KeepAppend(init, id, i.registry);
        assert ids == init + [id];
      }
    }

    static lemma {:induction false} KeepAppend(ids: seq<string>, id: string, registry: map<string, seq<string>>)
      ensures Spec.Keep(ids + [id], registry) == Spec.Keep(ids, registry) + if id in registry then [id] else []
    {
      if ids == [] {
        assert ([] + [id])[1..] == [];
      } else {
        var both, rest := ids + [id], ids[1..];
        KeepAppend(rest, id, registry);
        assert both[0] == ids[0] && both[1..] == rest + [id];
        var head, tail := if ids[0] in registry then [ids[0]] else [], if id in registry then [id] else [];
        assert head + (Spec.Keep(rest, registry) + tail) == (head + Spec.Keep(rest, registry)) + tail;
      }
    }

    method BuildSkills(i: Spec.Inputs) returns (skills: seq<Spec.Skill>)
      ensures skills == Spec.Skills(lib, i)
    {
      var ids := if i.settings.published != [] then i.settings.published else Spec.Sorted(i.registry.Keys);
      skills := [];
      for n := 0 to |ids|
        invariant skills == SkillsSoFar(lib, i, ids[..n])
      {
        assert ids[..n + 1][..n] == ids[..n];
        if ids[n] !in i.registry {
          continue;
        }
        skills := skills + [Spec.SkillFor(lib, i.settings, ids[n], i.registry[ids[n]])];
      }
      assert ids[..|ids|] == ids;
      SoFarIsAll(lib, i, ids);
    }

    static method CollectSchemes(names: seq<string>) returns (schemes: seq<string>)
      ensures schemes == Spec.KnownSchemes(names)
    {
      schemes := [];
      for n := 0 to |names|
        invariant schemes == Spec.KnownSchemes(names[..n])
      {
        assert names[..n + 1][..n] == names[..n];
        if names[n] !in Spec.KNOWN_SCHEMES {
          continue;
        }
        if names[n] !in schemes {
          schemes := schemes + [names[n]];
        }
      }
      assert names[..|names|] == names;
    }

    method BuildFresh(i: Spec.Inputs) returns (value: Spec.Card)
      ensures value == Spec.Fresh(lib, i)
    {
      var skills := BuildSkills(i);
      var url := Spec.Urls.CardUrl(i.settings.baseUrl, i.org);
      if Spec.VersionOf(i) == "1.0" {
        var schemes := CollectSchemes(i.settings.authSchemes);
        value := Spec.V1(url, lib.package, skills, Spec.ResolveDid(i), i.org, Spec.OutputModes(i.settings),
                         Spec.OrNone(schemes), Spec.OrNone(schemes));
      } else {
        value := Spec.Legacy(url, lib.package, skills, Spec.ResolveDid(i));
      }
    }

    method BuildAgentCard(i: Spec.Inputs) returns (card: Spec.Instance)
      requires Valid()
      modifies this
      ensures Valid() && View() == Spec.TableExec(lib, old(View()), Spec.Build(i))
      ensures card == Spec.Returned(lib, old(View()), i)
    {
      var key := Spec.KeyOf(i);
      if key in cache {
        return cache[key];
      }
      var value := BuildFresh(i);
      card := Spec.Instance(issued, value);
      cache := cache[key := card];
      origins := origins[key := i];
      issued := issued + 1;
    }
  }
}
