/**
  The module store: registered modules with their imports, the check that
  keeps the import graph acyclic, the operators visible through imports, and
  the cached list of module names.
 */
module ModStore {
  import opened Order
  import opened Digraph
  import opened Records
  import Resolve

  datatype Module = Module(source: Maybe<string>, deps: seq<string>, fixity: map<string, Resolve.Fixity>)

  type Modules = map<string, Module>

  function Imports(ms: Modules): Graph { map n | n in ms :: ms[n].deps }

  // ---- Cycles that a new module would close ----

  /** No cycle at `x` or anywhere beyond it. */
  ghost predicate Safe(g: Graph, x: string) {
    forall a :: a == x || Reach(g, x, a) ==> !Reach(g, a, a)
  }

  lemma LoopBelow(g: Graph, m: string)
    requires Reach(g, m, m)
    ensures exists d :: Edge(g, m, d) && Reach(g, d, d)
  {
    hide Reach;
    ReachFirst(g, m, m);
    var d :| Edge(g, m, d) && (d == m || Reach(g, d, m));
    if d != m {
      ReachEdge(g, m, d);
      ReachTrans(g, d, m, d);
    }
  }

  lemma SafeStep(g: Graph, m: string)
    requires forall d :: Edge(g, m, d) ==> Safe(g, d)
    ensures Safe(g, m)
  {
    hide Reach;
    forall a | a == m || Reach(g, m, a) ensures !Reach(g, a, a) {
      if a == m {
        if Reach(g, m, m) { LoopBelow(g, m); }
      } else {
        ReachFirst(g, m, a);
      }
    }
  }

  /** A walk of the extended graph that never leaves `name` is a walk of the old one. */
  lemma OldWalk(g: Graph, name: string, deps: seq<string>, p: seq<string>)
    requires Walk(g[name := deps], p) && forall i :: 0 <= i < |p| - 1 ==> p[i] != name
    ensures Walk(g, p)
  {
    forall i | 0 <= i < |p| - 1 ensures Edge(g, p[i], p[i + 1]) { assert Edge(g[name := deps], p[i], p[i + 1]); }
  }

  /** A cycle of the extended graph is an old one or goes through the new module. */
  lemma NewCycle(g: Graph, name: string, deps: seq<string>)
    requires Cyclic(g[name := deps])
    ensures Cyclic(g) || Reach(g[name := deps], name, name)
  {
    var h := g[name := deps];
    var a :| Reach(h, a, a);
    var p :| Joins(h, p, a, a);
    if i :| 0 <= i < |p| - 1 && p[i] == name {
      if i > 0 {
        assert Joins(h, p[..i + 1], a, name);
        assert Joins(h, p[i..], name, a);
        assert Reach(h, a, name) && Reach(h, name, a);
        ReachTrans(h, name, a, name);
      }
    } else {
      OldWalk(g, name, deps, p);
      assert Joins(g, p, a, a);
      assert Reach(g, a, a);
    }
  }

  // ---- Names in order ----

  method InsertName(names: seq<string>, n: string) returns (r: seq<string>)
    requires Ascending(names) && n !in names
    ensures Ascending(r) && forall x :: x in r <==> x in names || x == n
  {
    var i := 0;
    while i < |names| && Less(names[i], n)
      invariant 0 <= i <= |names| && forall j :: 0 <= j < i ==> Less(names[j], n)
    {
      i := i + 1;
    }
    r := names[..i] + [n] + names[i..];
    forall j | i <= j < |names| ensures Less(n, names[j]) {
      LessTotal(names[i], n);
      if j > i { LessTransitive(n, names[i], names[j]); }
    }
    forall x ensures x in r <==> x in names || x == n {
      assert names == names[..i] + names[i..];
    }
  }

  /** The names of a set in lexicographic order. */
  ghost function NameList(names: set<string>): (r: seq<string>)
    ensures Ascending(r) && forall x :: x in r <==> x in names
  {
    if names == {} then []
    else
      FirstName(names);
      var m :| IsFirst(names, m);
      [m] + NameList(names - {m})
  }

  ghost predicate IsFirst(names: set<string>, m: string) {
    m in names && forall x :: x in names && x != m ==> Less(m, x)
  }

  lemma {:induction false} FirstName(names: set<string>)
    requires names != {}
    ensures exists m :: IsFirst(names, m)
  {
    hide Less;
    var n :| n in names;
    var rest := names - {n};
    assert forall x :: x in names ==> x == n || x in rest;
    if rest == {} {
      assert IsFirst(names, n);
    } else {
      FirstName(rest);
      var m :| IsFirst(rest, m);
      LessTotal(m, n);
      if Less(m, n) {
        assert IsFirst(names, m);
      } else {
        forall x | x in names && x != n ensures Less(n, x) {
          if x != m { LessTransitive(n, m, x); }
        }
        assert IsFirst(names, n);
      }
    }
  }

  method SortNames(names: set<string>) returns (r: seq<string>)
    ensures r == NameList(names)
  {
    r := [];
    var left := names;
    while left != {}
      invariant left <= names && Ascending(r)
      invariant forall x :: x in r <==> x in names - left
      decreases |left|
    {
      var n :| n in left;
      r := InsertName(r, n);
      left := left - {n};
    }
    AscendingUnique(r, NameList(names));
  }

  // ---- The store ----

  class ModuleStore {
    var modules: Modules
    var order: seq<string>
    var sortedNames: Maybe<seq<string>>  // Nothing: stale
    var recursion: bool

    /** The import graph is acyclic, the order lists every module once, and a
        cached list of names is the sorted list of all modules. */
    ghost predicate Valid()
      reads this
    {
      && !Cyclic(Imports(modules))
      && (forall n :: n in order <==> n in modules) && (forall i, j :: 0 <= i < j < |order| ==> order[i] != order[j])
      && CacheOk()
    }

    ghost predicate CacheOk()
      reads this
    {
      sortedNames.Just? ==> sortedNames.value == NameList(modules.Keys)
    }

    constructor ()
      ensures Valid() && modules == map[] && order == [] && sortedNames == Nothing && !recursion
    {
      modules, order, sortedNames, recursion := map[], [], Nothing, false;
      new;
      assert forall a, s :: !Edge(Imports(modules), a, s);
      forall a ensures !Reach(Imports(modules), a, a) { ReachFirst(Imports(modules), a, a); }
    }

    method Register(name: string, mod: Module)
      modifies this`modules, this`order, this`sortedNames
      ensures modules == old(modules)[name := mod] && order == old(order) + [name] && sortedNames == Nothing
    {
      modules := modules[name := mod];
      order := order + [name];
      sortedNames := Nothing;
    }

    /** Names in lexicographic order, computed once per registration. */
    method SortedModuleNames() returns (names: seq<string>)
      requires CacheOk()
      modifies this`sortedNames
      ensures CacheOk() && sortedNames == Just(names) && names == NameList(modules.Keys)
    {
      if sortedNames.Just? {
        names := sortedNames.value;
      } else {
        names := SortNames(modules.Keys);
        sortedNames := Just(names);
      }
    }

    // ---- Circular imports ----

    /** Follow imports from `m`, which the last name on `path` imports; the path
        starts at the new module and follows edges of the graph it would make. */
    method WalkImports(m: string, path: seq<string>, ghost h: Graph) returns (circular: bool)
      requires path != [] && Walk(h, path) && Edge(h, path[|path| - 1], m)
      requires path[0] in h && path[0] !in modules && h == Imports(modules)[path[0] := h[path[0]]]
      ensures circular ==> Cyclic(h)
      ensures !circular ==> Safe(h, m)
      decreases modules.Keys - (set n | n in path), 1
    {
      if m in path {
        var i :| 0 <= i < |path| && path[i] == m;
        WalkCloses(h, path, i);
        return true;
      }
      if m !in modules {
        SafeStep(h, m);
        return false;
      }
      var path' := path + [m];
      assert Walk(h, path') by {
        forall i | 0 <= i < |path'| - 1 ensures Edge(h, path'[i], path'[i + 1]) {
          if i + 1 < |path| { assert Edge(h, path[i], path[i + 1]); }
        }
      }
      assert path'[|path|] == m && m in path';
      assert m in modules.Keys - (set n | n in path) && m !in modules.Keys - (set n | n in path');
      circular := WalkAll(modules[m].deps, path', h);
      if !circular { SafeStep(h, m); }
    }

    method WalkAll(deps: seq<string>, path: seq<string>, ghost h: Graph) returns (circular: bool)
      requires path != [] && Walk(h, path) && path[|path| - 1] in h && h[path[|path| - 1]] == deps
      requires path[0] in h && path[0] !in modules && h == Imports(modules)[path[0] := h[path[0]]]
      ensures circular ==> Cyclic(h)
      ensures !circular ==> forall d :: d in deps ==> Safe(h, d)
      decreases modules.Keys - (set n | n in path), 2
    {
      for i := 0 to |deps|
        invariant forall j :: 0 <= j < i ==> Safe(h, deps[j])
      {
        circular := WalkImports(deps[i], path, h);
        if circular { return true; }
      }
      return false;
    }

    /** Importing `deps` from a new module is refused exactly when it would
        close a cycle. */
    method CheckCircularDeps(name: string, deps: seq<string>) returns (circular: bool)
      requires !Cyclic(Imports(modules)) && name !in modules
      ensures circular <==> Cyclic(Imports(modules)[name := deps])
    {
      ghost var h := Imports(modules)[name := deps];
      circular := WalkAll(deps, [name], h);
      if !circular {
        SafeStep(h, name);
        if Cyclic(h) { NewCycle(Imports(modules), name, deps); }
      }
    }

    /** Check, then register: the store stays valid. */
    method Add(name: string, mod: Module) returns (ok: bool)
      requires Valid()
      modifies this`modules, this`order, this`sortedNames
      ensures Valid()
      ensures ok <==> name !in old(modules) && !Cyclic(old(Imports(modules))[name := mod.deps])
      ensures ok ==> modules == old(modules)[name := mod] && order == old(order) + [name]
      ensures !ok ==> modules == old(modules) && order == old(order) && sortedNames == old(sortedNames)
    {
      if name in modules { return false; }
      var circular := CheckCircularDeps(name, mod.deps);
      if circular { return false; }
      assert Imports(modules[name := mod]) == Imports(modules)[name := mod.deps];
      Register(name, mod);
      return true;
    }

    // ---- Operators in scope ----

    /** Enter `name` and then what it imports, unless entered before. */
    method WalkFixity(name: string, visited: set<string>, acc: map<string, Resolve.Fixity>, ghost order: seq<string>)
      returns (visited': set<string>, acc': map<string, Resolve.Fixity>, ghost order': seq<string>)
      requires visited == Members(order) && acc == Overlaid(modules, order)
      ensures order' == Preorder(modules, [name], order)
      ensures visited' == Members(order') && acc' == Overlaid(modules, order')
      decreases modules.Keys - visited, 1
    {
      hide Preorder, Overlaid;
      PreorderOne(modules, name, order);
      if name in visited {
        return visited, acc, order;
      }
      OverlaidMore(modules, order, name);
      visited' := visited + {name};
      order' := order + [name];
      if name !in modules {
        return visited', acc, order';
      }
      assert name in modules.Keys - visited && name !in modules.Keys - visited';
      visited', acc', order' := WalkFixities(modules[name].deps, visited', acc + modules[name].fixity, order');
    }

    method WalkFixities(deps: seq<string>, visited: set<string>, acc: map<string, Resolve.Fixity>, ghost order: seq<string>)
      returns (visited': set<string>, acc': map<string, Resolve.Fixity>, ghost order': seq<string>)
      requires visited == Members(order) && acc == Overlaid(modules, order)
      ensures order' == Preorder(modules, deps, order)
      ensures visited' == Members(order') && acc' == Overlaid(modules, order')
      decreases modules.Keys - visited, 2
    {
      visited', acc', order' := visited, acc, order;
      for i := 0 to |deps|
        invariant order <= order' && visited' == Members(order') && acc' == Overlaid(modules, order')
        invariant Preorder(modules, deps, order) == Preorder(modules, deps[i..], order')
      {
        ghost var before := order';
        assert deps[i..][0] == deps[i] && deps[i..][1..] == deps[i + 1..];
        visited', acc', order' := WalkFixity(deps[i], visited', acc', order');
        PreorderSplit(modules, deps[i], deps[i + 1..], before);
        assert [deps[i]] + deps[i + 1..] == deps[i..];
      }
    }

    /** The operators in scope are exactly those that imported modules declare,
        and the last of them in depth-first preorder that declares one decides. */
    method CollectFixityMap(imports: seq<string>) returns (result: map<string, Resolve.Fixity>)
      ensures forall op :: op in result <==>
        exists m :: m in modules && From(Imports(modules), imports, m) && op in modules[m].fixity
      ensures forall op :: op in result ==>
        exists i :: Last(modules, Preorder(modules, imports, []), op, i)
          && result[op] == modules[Preorder(modules, imports, [])[i]].fixity[op]
    {
      hide Reach;
      var visited;
      ghost var order;
      visited, result, order := WalkFixities(imports, {}, map[], []);
      PreorderReaches(modules, imports);
      forall op ensures (op in result <==> exists m :: m in modules && m in order && op in modules[m].fixity)
        ensures op in result ==> exists i :: Last(modules, order, op, i) && result[op] == modules[order[i]].fixity[op]
      {
        OverlaidLast(modules, order, op);
      }
    }
  }

  // ---- The order in which imports are entered ----

  /** `x` is one of `starts` or reached from one of them. */
  ghost predicate From(g: Graph, starts: seq<string>, x: string) {
    exists d :: d in starts && (d == x || Reach(g, d, x))
  }

  function Members(order: seq<string>): set<string> { set x | x in order }

  /** `seen`, then depth-first in preorder what is new among `todo` and below. */
  ghost function Preorder(ms: Modules, todo: seq<string>, seen: seq<string>): (r: seq<string>)
    ensures seen <= r
    decreases ms.Keys - Members(seen), |todo|
  {
    if todo == [] then seen
    else if todo[0] in seen then Preorder(ms, todo[1..], seen)
    else if todo[0] !in ms then
      assert ms.Keys - Members(seen + [todo[0]]) == ms.Keys - Members(seen);
      Preorder(ms, todo[1..], seen + [todo[0]])
    else
      assert todo[0] in ms.Keys - Members(seen) && todo[0] !in ms.Keys - Members(seen + [todo[0]]);
      assert ms.Keys - Members(seen + [todo[0]]) < ms.Keys - Members(seen);
      var inner := Preorder(ms, ms[todo[0]].deps, seen + [todo[0]]);
      assert todo[0] in inner by { assert inner[|seen|] == todo[0]; }
      assert ms.Keys - Members(inner) < ms.Keys - Members(seen);
      Preorder(ms, todo[1..], inner)
  }

  lemma PreorderOne(ms: Modules, x: string, seen: seq<string>)
    ensures Preorder(ms, [x], seen) ==
      if x in seen then seen else if x !in ms then seen + [x] else Preorder(ms, ms[x].deps, seen + [x])
  {
    assert [x][1..] == [];
  }

  lemma PreorderSplit(ms: Modules, x: string, rest: seq<string>, seen: seq<string>)
    ensures Preorder(ms, [x] + rest, seen) == Preorder(ms, rest, Preorder(ms, [x], seen))
  {
    assert ([x] + rest)[1..] == rest && [x][1..] == [];
  }

  /** What `r` adds to `seen`: nothing but what `todo` leads to, and with each
      name all that it points at. */
  ghost predicate Extends(ms: Modules, todo: seq<string>, seen: seq<string>, r: seq<string>) {
    && (forall d :: d in todo ==> d in r)
    && (forall x :: x in r && x !in seen ==> From(Imports(ms), todo, x))
    && (forall x, d :: x in r && x !in seen && Edge(Imports(ms), x, d) ==> d in r)
  }

  /** The new names are what `todo` leads to, and no name comes twice. */
  lemma {:induction false} PreorderIs(ms: Modules, todo: seq<string>, seen: seq<string>)
    ensures Extends(ms, todo, seen, Preorder(ms, todo, seen))
    ensures Once(seen) ==> Once(Preorder(ms, todo, seen))
    decreases ms.Keys - Members(seen), |todo|
  {
    hide Reach, From, Extends;
    if todo == [] {
      NothingNew(ms, seen);
    } else {
      var t, rest := todo[0], todo[1..];
      assert todo == [t] + rest;
      PreorderSplit(ms, t, rest, seen);
      PreorderOne(ms, t, seen);
      var mid := Preorder(ms, [t], seen);
      if t in seen {
        assert Extends(ms, [t], seen, mid) by { OneOld(ms, t, seen); }
      } else if t !in ms {
        assert ms.Keys - Members(mid) == ms.Keys - Members(seen);
        OneForeign(ms, t, seen);
      } else {
        assert t in ms.Keys - Members(seen) && t !in ms.Keys - Members(seen + [t]);
        assert mid[|seen|] == t;
        assert ms.Keys - Members(seen + [t]) < ms.Keys - Members(seen);
        assert ms.Keys - Members(mid) < ms.Keys - Members(seen);
        PreorderIs(ms, ms[t].deps, seen + [t]);
        OneModule(ms, t, seen, mid);
      }
      PreorderIs(ms, rest, mid);
      ExtendsTwice(ms, t, rest, seen, mid, Preorder(ms, rest, mid));
    }
  }

  lemma NothingNew(ms: Modules, seen: seq<string>)
    ensures Extends(ms, [], seen, seen)
  {
  }

  lemma OneOld(ms: Modules, t: string, seen: seq<string>)
    requires t in seen
    ensures Extends(ms, [t], seen, seen)
  {
  }

  lemma OneForeign(ms: Modules, t: string, seen: seq<string>)
    requires t !in ms
    ensures Extends(ms, [t], seen, seen + [t])
  {
    hide Reach;
  }

  lemma OneModule(ms: Modules, t: string, seen: seq<string>, mid: seq<string>)
    requires t in ms && seen + [t] <= mid && Extends(ms, ms[t].deps, seen + [t], mid)
    ensures Extends(ms, [t], seen, mid)
  {
    hide Reach, From;
    assert mid[|seen|] == t;
    forall x | x in mid && x !in seen ensures From(Imports(ms), [t], x) {
      if x == t { FromDeps(ms, t, [t], x); } else { assert x !in seen + [t]; FromDeps(ms, t, [t], x); }
    }
    forall x, d | x in mid && x !in seen && Edge(Imports(ms), x, d) ensures d in mid {
      if x != t { assert x !in seen + [t]; }
    }
  }

  lemma ExtendsTwice(ms: Modules, t: string, rest: seq<string>, seen: seq<string>, mid: seq<string>, r: seq<string>)
    requires Extends(ms, [t], seen, mid) && Extends(ms, rest, mid, r) && seen <= mid <= r
    ensures Extends(ms, [t] + rest, seen, r)
  {
    hide Reach;
    forall x | x in mid ensures x in r {
      var i :| 0 <= i < |mid| && mid[i] == x;
      assert r[i] == x;
    }
    var g, todo := Imports(ms), [t] + rest;
    assert t in [t] && t in mid;
    forall x | x in r && x !in seen ensures From(g, todo, x) {
      var starts := if x in mid then [t] else rest;
      assert From(g, starts, x);
      var d :| d in starts && (d == x || Reach(g, d, x));
      assert d in todo;
    }
  }

  lemma FromDeps(ms: Modules, t: string, todo: seq<string>, x: string)
    requires t in ms && t in todo && (x == t || From(Imports(ms), ms[t].deps, x))
    ensures From(Imports(ms), todo, x)
  {
    hide Reach;
    if x != t {
      var d :| d in ms[t].deps && (d == x || Reach(Imports(ms), d, x));
      assert Edge(Imports(ms), t, d);
      ReachFirst(Imports(ms), t, x);
    }
  }

  predicate Once(order: seq<string>) { forall i, j :: 0 <= i < j < |order| ==> order[i] != order[j] }

  /** Of the modules, exactly those imported are entered, each once. */
  lemma PreorderReaches(ms: Modules, imports: seq<string>)
    ensures forall m :: m in ms ==> (m in Preorder(ms, imports, []) <==> From(Imports(ms), imports, m))
    ensures Once(Preorder(ms, imports, []))
  {
    hide Reach, Preorder;
    var order, g := Preorder(ms, imports, []), Imports(ms);
    PreorderIs(ms, imports, []);
    forall m | m in ms && From(g, imports, m) ensures m in order {
      var i :| i in imports && (i == m || Reach(g, i, m));
      if i != m { ReachStays(g, Members(order), i, m); }
    }
  }

  /** The fixities of the modules listed, later ones put over earlier ones. */
  function Overlaid(ms: Modules, order: seq<string>): map<string, Resolve.Fixity> {
    if order == [] then map[]
    else
      var m := order[|order| - 1];
      Overlaid(ms, order[..|order| - 1]) + (if m in ms then ms[m].fixity else map[])
  }

  lemma OverlaidMore(ms: Modules, order: seq<string>, m: string)
    ensures Overlaid(ms, order + [m]) == Overlaid(ms, order) + (if m in ms then ms[m].fixity else map[])
  {
    assert (order + [m])[..|order|] == order;
  }

  predicate Declares(ms: Modules, m: string, op: string) { m in ms && op in ms[m].fixity }

  /** `order[i]` is the last in the list to declare `op`. */
  predicate Last(ms: Modules, order: seq<string>, op: string, i: int) {
    0 <= i < |order| && Declares(ms, order[i], op) && forall j :: i < j < |order| ==> !Declares(ms, order[j], op)
  }

  lemma {:induction false} OverlaidLast(ms: Modules, order: seq<string>, op: string)
    ensures op in Overlaid(ms, order) <==> exists m :: m in order && Declares(ms, m, op)
    ensures op in Overlaid(ms, order) ==>
      exists i :: Last(ms, order, op, i) && Overlaid(ms, order)[op] == ms[order[i]].fixity[op]
  {
    if order != [] {
      var k := |order| - 1;
      var rest := order[..k];
      assert order == rest + [order[k]];
      OverlaidLast(ms, rest, op);
      if Declares(ms, order[k], op) {
        assert Last(ms, order, op, k);
      } else if op in Overlaid(ms, rest) {
        var i :| Last(ms, rest, op, i) && Overlaid(ms, rest)[op] == ms[rest[i]].fixity[op];
        assert Last(ms, order, op, i);
      }
    }
  }
}
