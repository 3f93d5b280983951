/** The two maps of MemoryStorage as values: names by identifier, and the byName index
    (storage_memory.go), with what each call does to them. */
module NameIndex {
  import opened Skills

  datatype Store = Store(names: map<string, string>, byName: map<string, string>)

  datatype Call =
    | Save(id: string, name: string)
    | Update(id: string, name: string)
    | Delete(id: string)
    | Clear

  /** byName is the inverse of names. */
  ghost predicate Exact(s: Store) {
    forall id, name :: (name in s.byName && s.byName[name] == id) <==> (id in s.names && s.names[id] == name)
  }

  /** Save overwrites both maps; it never looks for an older name of the same skill. */
  function AfterSave(s: Store, id: string, name: string): Store {
    Store(s.names[id := name], s.byName[name := id])
  }

  function AfterUpdate(s: Store, id: string, name: string): Store {
    if id !in s.names then s
    else
      Store(s.names[id := name],
            if name != s.names[id] then (s.byName - {s.names[id]})[name := id] else s.byName)
  }

  function AfterDelete(s: Store, id: string): Store {
    if id !in s.names then s else Store(s.names - {id}, s.byName - {s.names[id]})
  }

  function After(s: Store, call: Call): Store {
    match call
    case Save(id, name) => AfterSave(s, id, name)
    case Update(id, name) => AfterUpdate(s, id, name)
    case Delete(id) => AfterDelete(s, id)
    case Clear => Store(map[], map[])
  }

  /** The naming discipline, checkable before the call with two look-ups: no other identifier holds the
      name, and Save does not rename. */
  predicate Disciplined(s: Store, call: Call) {
    match call
    case Save(id, name) =>
      (name in s.byName ==> s.byName[name] == id) && (id in s.names ==> s.names[id] == name)
    case Update(id, name) =>
      id in s.names && name in s.byName ==> s.byName[name] == id
    case _ => true
  }

  /** From an exact index, a call leaves an exact index exactly when it is disciplined. */
  lemma ExactIff(s: Store, call: Call)
    requires Exact(s)
    ensures Exact(After(s, call)) <==> Disciplined(s, call)
  {
    match call
    case Save(id, name) =>
      SaveExactIff(s, id, name);
    case Update(id, name) =>
      UpdateExactIff(s, id, name);
    case Delete(id) =>
      DeleteKeepsExact(s, id);
    case Clear =>
  }

  lemma SaveExactIff(s: Store, id: string, name: string)
    requires Exact(s)
    ensures Exact(AfterSave(s, id, name)) <==> Disciplined(s, Save(id, name))
  {
    var t := AfterSave(s, id, name);
    if name in s.byName && s.byName[name] != id {
      var other := s.byName[name];
      assert other in t.names && t.names[other] == name && t.byName[name] == id;
    } else if id in s.names && s.names[id] != name {
      var stale := s.names[id];
      assert stale in s.byName && s.byName[stale] == id;
      assert stale in t.byName && t.byName[stale] == id && t.names[id] == name;
    }
  }

  lemma UpdateExactIff(s: Store, id: string, name: string)
    requires Exact(s)
    ensures Exact(AfterUpdate(s, id, name)) <==> Disciplined(s, Update(id, name))
  {
    var t := AfterUpdate(s, id, name);
    if id in s.names {
      var current := s.names[id];
      assert current in s.byName && s.byName[current] == id;
      if name in s.byName && s.byName[name] != id {
        var other := s.byName[name];
        assert other in t.names && t.names[other] == name && t.byName[name] == id;
      }
    }
  }

  lemma DeleteKeepsExact(s: Store, id: string)
    requires Exact(s)
    ensures Exact(AfterDelete(s, id))
  {
  }

  /** Saving an existing skill under a new name leaves the old name behind, and deleting one of two skills
      of the same name takes the other one's entry away. */
  lemma IndexCanDrift()
    ensures var renamed := After(After(Store(map[], map[]), Save("a", "old")), Save("a", "new"));
            "old" in renamed.byName && !Exact(renamed)
    ensures var clashed := After(After(After(Store(map[], map[]), Save("a", "n")), Save("b", "n")), Delete("a"));
            "b" in clashed.names && clashed.names["b"] == "n" && "n" !in clashed.byName && !Exact(clashed)
  {
    var renamed := After(After(Store(map[], map[]), Save("a", "old")), Save("a", "new"));
    assert "old" in renamed.byName && renamed.byName["old"] == "a" && renamed.names["a"] == "new";
    var clashed := After(After(After(Store(map[], map[]), Save("a", "n")), Save("b", "n")), Delete("a"));
    assert "b" in clashed.names && clashed.names["b"] == "n" && "n" !in clashed.byName;
  }

  function Run(s: Store, calls: seq<Call>): Store
    decreases calls
  {
    if calls == [] then s else Run(After(s, calls[0]), calls[1..])
  }

  predicate DisciplinedRun(s: Store, calls: seq<Call>)
    decreases calls
  {
    calls == [] || (Disciplined(s, calls[0]) && DisciplinedRun(After(s, calls[0]), calls[1..]))
  }

  lemma {:induction false} RunExact(s: Store, calls: seq<Call>)
    requires Exact(s) && DisciplinedRun(s, calls)
    ensures Exact(Run(s, calls))
    decreases calls
  {
    if calls != [] {
      ExactIff(s, calls[0]);
      RunExact(After(s, calls[0]), calls[1..]);
    }
  }

  /** Look-up through the index. */
  function IdByName(s: Store, name: string): Option<string> {
    if name in s.byName && s.byName[name] in s.names then Some(s.byName[name]) else None
  }

  /** Look-up by scanning the stored skills. */
  ghost predicate FoundByScan(s: Store, name: string, r: Option<string>) {
    match r
    case Some(id) => id in s.names && s.names[id] == name && forall j :: j in s.names && s.names[j] == name ==> j == id
    case None => forall j :: j in s.names ==> s.names[j] != name
  }

  /** Each call as a look-up sees it, from any store, drifted or not: a Save redirects its name and revives
      entries that point to its identifier, an Update of a stored skill moves its name, a Delete drops the
      skill's current name and every entry that points to it. */
  lemma LookupsAfter(s: Store, id: string, name: string, n: string)
    ensures IdByName(After(s, Save(id, name)), n) ==
            if n == name || (n in s.byName && s.byName[n] == id) then Some(id) else IdByName(s, n)
    ensures id in s.names && name != s.names[id] ==>
            IdByName(After(s, Update(id, name)), n) ==
            if n == name then Some(id) else if n == s.names[id] then None else IdByName(s, n)
    ensures (id in s.names ==> name == s.names[id]) ==>
            IdByName(After(s, Update(id, name)), n) == IdByName(s, n)
    ensures IdByName(After(s, Delete(id)), n) ==
            if id in s.names && (n == s.names[id] || IdByName(s, n) == Some(id)) then None else IdByName(s, n)
  {
  }

  lemma {:induction false} RunSnoc(s: Store, calls: seq<Call>, last: Call)
    ensures Run(s, calls + [last]) == After(Run(s, calls), last)
    decreases calls
  {
    if calls == [] {
      assert [] + [last] == [last] && [last][1..] == [];
    } else {
      assert (calls + [last])[0] == calls[0] && (calls + [last])[1..] == calls[1..] + [last];
      RunSnoc(After(s, calls[0]), calls[1..], last);
    }
  }

  /** After every disciplined run from an empty storage, the index answers like a scan. */
  lemma LookupIsScan(calls: seq<Call>, name: string)
    requires DisciplinedRun(Store(map[], map[]), calls)
    ensures var s := Run(Store(map[], map[]), calls); FoundByScan(s, name, IdByName(s, name))
  {
    var empty := Store(map[], map[]);
    RunExact(empty, calls);
    var s := Run(empty, calls);
    forall j | j in s.names && s.names[j] == name
      ensures name in s.byName && s.byName[name] == j
    {
    }
  }
}
