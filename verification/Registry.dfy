/** The codespaces connected, by alias. */
module Registry {
  import opened Options
  import opened Alias

  datatype Codespace = Codespace(alias: string, name: string, repository: string, branch: string, workdir: string)

  datatype Resolved = Found(codespace: Codespace) | NothingConnected | Ambiguous | Unknown

  type Codespaces = map<string, Codespace>

  /** Each codespace stands under its own alias, and none is connected twice. */
  ghost predicate Consistent(codespaces: Codespaces) {
    && (forall a :: a in codespaces ==> codespaces[a].alias == a)
    && (forall a, b :: a in codespaces && b in codespaces && a != b && codespaces[a].name != "" ==> codespaces[a].name != codespaces[b].name)
  }

  /** A codespace of that name is connected. The empty name is no name. */
  ghost predicate Connected(codespaces: Codespaces, name: string) {
    name != "" && exists a :: a in codespaces && codespaces[a].name == name
  }

  class Registry {
    var codespaces: Codespaces

    constructor ()
      ensures Consistent(codespaces) && codespaces == map[]
    {
      codespaces := map[];
    }

    /** `findByNameLocked`. */
    method FindByName(name: string) returns (found: Option<Codespace>)
      ensures found.Some? <==> Connected(codespaces, name)
      ensures found.Some? ==> found.value in codespaces.Values && found.value.name == name
    {
      if name == "" { return None; }
      var rest := codespaces.Keys;
      while rest != {}
        invariant rest <= codespaces.Keys
        invariant forall a :: a in codespaces && a !in rest ==> codespaces[a].name != name
        decreases |rest|
      {
        var a :| a in rest;
        if codespaces[a].name == name { return Some(codespaces[a]); }
        rest := rest - {a};
      }
      found := None;
    }

    /** `Register`: exactly a codespace whose alias and name are both new is added. */
    method Register(cs: Codespace) returns (ok: bool)
      requires Consistent(codespaces)
      modifies this
      ensures Consistent(codespaces)
      ensures ok <==> cs.alias !in old(codespaces) && !Connected(old(codespaces), cs.name)
      ensures codespaces == if ok then old(codespaces)[cs.alias := cs] else old(codespaces)
    {
      if cs.alias in codespaces { return false; }
      var existing := FindByName(cs.name);
      if existing.Some? { return false; }
      ghost var before := codespaces;
      codespaces := codespaces[cs.alias := cs];
      ok := true;
      assert forall a :: a in before ==> cs.name == "" || before[a].name != cs.name;
    }

    /** `Deregister`. */
    method Deregister(alias: string) returns (removed: Option<Codespace>)
      requires Consistent(codespaces)
      modifies this
      ensures Consistent(codespaces) && codespaces == old(codespaces) - {alias}
      ensures removed == if alias in old(codespaces) then Some(old(codespaces)[alias]) else None
      ensures removed.Some? ==> !Connected(codespaces, removed.value.name)
    {
      removed := if alias in codespaces then Some(codespaces[alias]) else None;
      codespaces := codespaces - {alias};
    }

    /** `Resolve`: without an alias, the only one connected. */
    method Resolve(alias: string) returns (r: Resolved)
      requires Consistent(codespaces)
      ensures r.Found? ==> r.codespace in codespaces.Values && (alias != "" ==> r.codespace.alias == alias)
      ensures r.Found? <==> if alias == "" then |codespaces| == 1 else alias in codespaces
      ensures r.Found? && alias == "" ==> codespaces == map[r.codespace.alias := r.codespace]
      ensures r.NothingConnected? <==> alias == "" && codespaces == map[]
      ensures r.Unknown? <==> alias != "" && alias !in codespaces
    {
      if alias == "" {
        if |codespaces| == 0 { return NothingConnected; }
        if |codespaces| == 1 {
          OneKey(codespaces);
          var a :| a in codespaces;
          return Found(codespaces[a]);
        }
        return Ambiguous;
      }
      r := if alias in codespaces then Found(codespaces[alias]) else Unknown;
    }

    /** A codespace under its default alias can always be added, unless it is connected already; it is then found under that
        alias, and taking it out again restores what was there. */
    method RegisterDefault(aliases: seq<string>, name: string, repository: string, branch: string, workdir: string)
      returns (alias: string, ok: bool)
      requires Consistent(codespaces) && (forall a :: a in codespaces ==> a in aliases) && |aliases| <= SLICE_LIMIT
      modifies this
      ensures Consistent(codespaces) && ValidAlias(alias)
      ensures ok <==> !Connected(old(codespaces), name)
      ensures ok ==> alias in codespaces && codespaces - {alias} == old(codespaces)
      ensures !ok ==> codespaces == old(codespaces)
    {
      alias := DefaultAlias(repository, aliases);
      ok := Register(Codespace(alias, name, repository, branch, workdir));
      assert ok ==> codespaces - {alias} == old(codespaces);
    }
  }

  lemma OneKey(codespaces: Codespaces)
    requires |codespaces| == 1
    ensures exists a :: a in codespaces && codespaces == map[a := codespaces[a]]
    ensures forall a :: a in codespaces ==> codespaces == map[a := codespaces[a]]
  {
    assert |codespaces.Keys| == 1;
    var a :| a in codespaces.Keys;
    assert codespaces.Keys - {a} == {} by { assert |codespaces.Keys - {a}| == 0; }
    assert forall b :: b in codespaces ==> b == a || b in codespaces.Keys - {a};
    assert codespaces.Keys == {a};
    assert codespaces == map[a := codespaces[a]];
  }
}
