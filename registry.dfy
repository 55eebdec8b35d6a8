// The node-queue strategy registry (src/combina_bnb_solver/NodeQueue.cpp):
// a name -> factory map, the sorted list of registered names and the
// default name used when a queue is requested without one.

module QueueRegistry {
  import opened Common

  /** The queue a factory builds; `Custom` stands for a factory registered
      by a user of the library. */
  datatype Strategy = DepthFirst | BestFirst | BestThenDive | DynamicBacktracking | Custom(id: nat)

  /** `std::string::operator<`: lexicographic order on characters. */
  predicate StrLess(a: string, b: string)
    decreases |a|
  {
    if |a| == 0 then |b| > 0
    else if |b| == 0 then false
    else a[0] < b[0] || (a[0] == b[0] && StrLess(a[1..], b[1..]))
  }

  lemma {:induction false} StrLessIrreflexive(a: string)
    ensures !StrLess(a, a)
    decreases |a|
  {
    if |a| > 0 {
      StrLessIrreflexive(a[1..]);
    }
  }

  lemma {:induction false} StrLessTransitive(a: string, b: string, c: string)
    requires StrLess(a, b) && StrLess(b, c)
    ensures StrLess(a, c)
    decreases |a|
  {
    if |a| > 0 && a[0] == b[0] && b[0] == c[0] {
      StrLessTransitive(a[1..], b[1..], c[1..]);
    }
  }

  lemma {:induction false} StrLessTotal(a: string, b: string)
    ensures a == b || StrLess(a, b) || StrLess(b, a)
    decreases |a|
  {
    if |a| > 0 && |b| > 0 && a[0] == b[0] {
      StrLessTotal(a[1..], b[1..]);
      if a[1..] == b[1..] {
        assert a == [a[0]] + a[1..] && b == [b[0]] + b[1..];
      }
    }
  }

  /** Strictly increasing: the iteration order of a `std::map` over its keys. */
  predicate StrictlySorted(s: seq<string>)
  {
    forall i, j :: 0 <= i < j < |s| ==> StrLess(s[i], s[j])
  }

  /** Insert `x` into a strictly sorted list of names, keeping it sorted. */
  function InsertName(s: seq<string>, x: string): (r: seq<string>)
    requires StrictlySorted(s)
    ensures StrictlySorted(r)
    ensures forall k :: k in r <==> k in s || k == x
    decreases |s|
  {
    if s == [] then [x]
    else if StrLess(x, s[0]) then
      assert forall j :: 0 <= j < |s| ==> StrLess(x, s[j]) by {
        forall j | 0 < j < |s| ensures StrLess(x, s[j]) {
          StrLessTransitive(x, s[0], s[j]);
        }
      }
      [x] + s
    else if x == s[0] then s
    else
      StrLessTotal(x, s[0]);
      var t := InsertName(s[1..], x);
      assert forall k :: k in t ==> StrLess(s[0], k) by {
        forall k | k in t ensures StrLess(s[0], k) {
          assert k in s[1..] || k == x;
        }
      }
      [s[0]] + t
  }

  /** The names of a sorted list are exactly its members. */
  lemma SortedNamesUnique(s: seq<string>)
    requires StrictlySorted(s)
    ensures forall i, j :: 0 <= i < |s| && 0 <= j < |s| && s[i] == s[j] ==> i == j
  {
    forall i, j | 0 <= i < |s| && 0 <= j < |s| && s[i] == s[j] ensures i == j {
      if i < j || j < i {
        StrLessIrreflexive(s[i]);
      }
    }
  }

  /** Registering `dfs`, `bfs`, `btd`, `dbt` in that order lists them as
      `bfs, btd, dbt, dfs`. */
  lemma DefaultNamesInOrder()
    ensures InsertName(InsertName(InsertName(InsertName([], "dfs"), "bfs"), "btd"), "dbt")
      == ["bfs", "btd", "dbt", "dfs"]
  {
    var s1 := InsertName([], "dfs");
    assert s1 == ["dfs"];
    assert StrLess("bfs", "dfs");
    var s2 := InsertName(s1, "bfs");
    assert s2 == ["bfs", "dfs"];
    assert StrLess("btd", "dfs") && !StrLess("btd", "bfs");
    var s3 := InsertName(s2, "btd");
    assert s2[1..] == ["dfs"];
    assert InsertName(["dfs"], "btd") == ["btd", "dfs"];
    assert s3 == ["bfs", "btd", "dfs"];
    assert StrLess("dbt", "dfs") && !StrLess("dbt", "bfs") && !StrLess("dbt", "btd");
    assert InsertName(["dfs"], "dbt") == ["dbt", "dfs"];
    assert s3[1..] == ["btd", "dfs"];
    assert s3[1..][1..] == ["dfs"];
    assert InsertName(["btd", "dfs"], "dbt") == ["btd", "dbt", "dfs"];
  }

  lemma DefaultNamesDistinct()
    ensures "bfs" != "dfs"
    ensures "btd" != "dfs" && "btd" != "bfs"
    ensures "dbt" != "dfs" && "dbt" != "bfs" && "dbt" != "btd"
  {
    assert "bfs"[0] != "dfs"[0];
    assert "btd"[0] != "dfs"[0] && "btd"[1] != "bfs"[1];
    assert "dbt"[1] != "dfs"[1] && "dbt"[0] != "bfs"[0] && "dbt"[0] != "btd"[0];
  }

  /** `std::map::emplace`: a name already present keeps its factory. */
  function Emplace(registry: map<string, Strategy>, name: string, factory: Strategy): (r: map<string, Strategy>)
    ensures r.Keys == registry.Keys + {name}
    ensures name in registry ==> r == registry
    ensures name !in registry ==> r[name] == factory
    ensures forall k :: k in registry && k != name ==> r[k] == registry[k]
  {
    if name in registry then registry else registry[name := factory]
  }

  /** The registration the documentation of `register_type` describes: the
      new factory overwrites one registered under the same name. */
  function Overwrite(registry: map<string, Strategy>, name: string, factory: Strategy): (r: map<string, Strategy>)
    ensures r.Keys == registry.Keys + {name}
    ensures r[name] == factory
    ensures forall k :: k in registry && k != name ==> r[k] == registry[k]
  {
    registry[name := factory]
  }

  /** The two agree exactly on a name that is new or re-registered with the
      factory it already has; re-registering `dfs` with the best-first
      factory keeps depth-first search under `emplace`. */
  lemma EmplaceIgnoresReRegistration(registry: map<string, Strategy>, name: string, factory: Strategy)
    ensures Emplace(registry, name, factory) == Overwrite(registry, name, factory) <==>
      name !in registry || registry[name] == factory
    ensures var m := map["dfs" := DepthFirst];
      Emplace(m, "dfs", BestFirst)["dfs"] == DepthFirst && Overwrite(m, "dfs", BestFirst)["dfs"] == BestFirst
  {
    if name in registry && registry[name] != factory {
      assert Emplace(registry, name, factory)[name] != Overwrite(registry, name, factory)[name];
    }
  }

  class NodeQueueRegistry {
    var typeRegistry: map<string, Strategy>
    var typeNames: seq<string>
    var defaultTypeName: string

    /** `type_names` lists the registry keys in order, and a non-empty
        registry has a registered default. */
    ghost predicate Valid()
      reads this
    {
      StrictlySorted(typeNames) &&
      (forall k :: k in typeNames <==> k in typeRegistry) &&
      (defaultTypeName == [] <==> typeRegistry == map[]) &&
      (defaultTypeName != [] ==> defaultTypeName in typeRegistry)
    }

    /** The static registry before any registration. */
    constructor ()
      ensures Valid()
      ensures typeRegistry == map[] && typeNames == [] && defaultTypeName == []
    {
      typeRegistry := map[];
      typeNames := [];
      defaultTypeName := [];
    }

    /** `create(solver, type)`: an empty name selects the default; an
        unregistered name is `std::out_of_range` from `map::at`. */
    method Create(name: string) returns (r: Result<Strategy, string>)
      requires Valid()
      ensures var key := if name == [] then defaultTypeName else name;
        (key in typeRegistry ==> r == Ok(typeRegistry[key])) &&
        (key !in typeRegistry ==> r == Err("out_of_range"))
    {
      var key := name;
      if key == [] {
        key := defaultTypeName;
      }
      if key in typeRegistry {
        r := Ok(typeRegistry[key]);
      } else {
        r := Err("out_of_range");
      }
    }

    /** `register_type(type, factory, make_default)`: `emplace` keeps the
        factory of a name already registered; the first name registered, or
        one registered with `make_default`, becomes the default. */
    method RegisterType(name: string, factory: Strategy, makeDefault: bool)
      requires Valid() && name != []
      modifies this
      ensures Valid()
      ensures typeRegistry == Emplace(old(typeRegistry), name, factory)
      ensures defaultTypeName == if makeDefault || old(defaultTypeName) == [] then name
        else old(defaultTypeName)
      ensures typeNames == if name in old(typeRegistry) then old(typeNames)
        else InsertName(old(typeNames), name)
    {
      if name !in typeRegistry {
        typeRegistry := typeRegistry[name := factory];
        typeNames := InsertName(typeNames, name);
      }
      if makeDefault || defaultTypeName == [] {
        defaultTypeName := name;
      }
    }

    /** `get_types()`. */
    method GetTypes() returns (names: seq<string>)
      requires Valid()
      ensures StrictlySorted(names) && forall k :: k in names <==> k in typeRegistry
      ensures names == typeNames
    {
      names := typeNames;
    }

    /** `register_default_types()`: on a fresh registry the four built-in
        strategies are registered with `dfs` the default, and they are
        listed as `bfs, btd, dbt, dfs`. */
    method RegisterDefaultTypes()
      requires Valid() && typeRegistry == map[]
      modifies this
      ensures Valid()
      ensures typeRegistry == map["dfs" := DepthFirst, "bfs" := BestFirst,
        "btd" := BestThenDive, "dbt" := DynamicBacktracking]
      ensures typeNames == ["bfs", "btd", "dbt", "dfs"]
      ensures defaultTypeName == "dfs"
    {
      assert forall i :: 0 <= i < |typeNames| ==> typeNames[i] in typeRegistry;
      DefaultNamesDistinct();
      RegisterType("dfs", DepthFirst, true);
      assert "bfs" !in typeRegistry;
      RegisterType("bfs", BestFirst, false);
      assert "btd" !in typeRegistry;
      RegisterType("btd", BestThenDive, false);
      assert "dbt" !in typeRegistry;
      RegisterType("dbt", DynamicBacktracking, false);
      DefaultNamesInOrder();
    }
  }
}
