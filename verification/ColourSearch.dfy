/**
  Three-colour depth-first search over the superclass (or type alias) graph:
  it looks for a cycle and fills in transitive closures on the way back. A
  visit that finds a cycle leaves its grey nodes and its path behind, and the
  search goes on with the remaining white nodes all the same.
 */
module ColourSearch {
  import opened Digraph

  datatype Colour = White | Grey | Black

  /** Every recorded closure holds exactly the names reached by edges. */
  ghost predicate Exact(g: Graph, closures: map<string, set<string>>) {
    forall n :: n in closures ==> forall k :: k in closures[n] <==> Reach(g, n, k)
  }

  /** A walk along edges that ends where it began. */
  predicate IsCycle(g: Graph, c: seq<string>) { |c| >= 2 && Joins(g, c, c[0], c[0]) }

  ghost predicate NoRepeats(p: seq<string>) { forall i, j :: 0 <= i < j < |p| ==> p[i] != p[j] }

  /** The path from position `base` on is a walk. */
  predicate WalkFrom(g: Graph, path: seq<string>, base: nat) {
    base <= |path| && forall i :: base <= i < |path| - 1 ==> Edge(g, path[i], path[i + 1])
  }

  /** What holds all along: `base` is where the visit of the current root began.
      What lies on the path before it was left there by earlier cycles. */
  ghost predicate Clean(g: Graph, colours: map<string, Colour>, path: seq<string>, base: nat, closing: bool, closures: map<string, set<string>>)
  {
    && colours.Keys == g.Keys
    && NoRepeats(path) && WalkFrom(g, path, base)
    && (forall n :: n in colours && colours[n].Grey? <==> n in path)
    && (forall n, s :: n in colours && colours[n].Black? && Edge(g, n, s) && s in g ==> colours[s].Black?)
    && (forall n :: n in colours && colours[n].Black? ==> !Reach(g, n, n))
    && (closing ==> Exact(g, closures) && forall n :: n in colours && colours[n].Black? ==> n in closures)
  }

  /** A visit that starts a new root leaves the old path behind. */
  lemma Restart(g: Graph, colours: map<string, Colour>, path: seq<string>, base: nat, closing: bool, closures: map<string, set<string>>)
    requires Clean(g, colours, path, base, closing, closures)
    ensures Clean(g, colours, path, |path|, closing, closures)
  {
  }

  /** The part of the path from `start` on, closed up by its first name. */
  function Loop(path: seq<string>, start: nat): seq<string>
    requires start < |path|
  {
    path[start..] + [path[start]]
  }

  /** The last name on the path points back at the one at `start`. */
  ghost predicate TurnsBack(g: Graph, path: seq<string>, start: nat) {
    start < |path| && Edge(g, path[|path| - 1], path[start])
  }

  function Whites(colours: map<string, Colour>): set<string> { set n | n in colours && colours[n].White? }

  function Blacks(colours: map<string, Colour>): set<string> { set n | n in colours && colours[n].Black? }

  /** A black node reaches only black nodes, so it cannot reach a grey one. */
  lemma BlackReach(g: Graph, colours: map<string, Colour>, path: seq<string>, base: nat, closing: bool, closures: map<string, set<string>>, s: string, n: string)
    requires Clean(g, colours, path, base, closing, closures)
    requires s in g && colours[s].Black? && n in g && !colours[n].Black?
    ensures !Reach(g, s, n)
  {
    if Reach(g, s, n) { ReachStays(g, Blacks(colours), s, n); }
  }

  /** The union the search records for a finished node. */
  function Collect(supers: seq<string>, closures: map<string, set<string>>): set<string> {
    (set s | s in supers) + (set s, k | s in supers && s in closures && k in closures[s] :: k)
  }

  lemma CollectMore(supers: seq<string>, s: string, closures: map<string, set<string>>)
    ensures Collect(supers + [s], closures)
         == Collect(supers, closures) + {s} + (if s in closures then closures[s] else {})
  {
    forall x ensures x in supers + [s] <==> x in supers || x == s {}
  }

  lemma CollectExact(g: Graph, closures: map<string, set<string>>, n: string)
    requires n in g && Exact(g, closures) && forall s :: s in g[n] && s in g ==> s in closures
    ensures forall k :: k in Collect(g[n], closures) <==> Reach(g, n, k)
  {
    forall k ensures k in Collect(g[n], closures) <==> Reach(g, n, k) {
      ReachFirst(g, n, k);
      if Reach(g, n, k) {
        var s :| Edge(g, n, s) && (s == k || Reach(g, s, k));
        if s != k {
          ReachFirst(g, s, k);
          assert s in closures && k in closures[s];
        }
      }
      if k in g[n] {
        assert Edge(g, n, k);
      } else if k in Collect(g[n], closures) {
        var s :| s in g[n] && s in closures && k in closures[s];
        assert Edge(g, n, s) && Reach(g, s, k);
      }
    }
  }

  /** Turning a white node grey keeps the search clean. */
  lemma Enter(g: Graph, colours: map<string, Colour>, path: seq<string>, base: nat, closing: bool, closures: map<string, set<string>>, name: string)
    requires Clean(g, colours, path, base, closing, closures)
    requires name in g && colours[name].White? && (|path| > base ==> Edge(g, path[|path| - 1], name))
    ensures Clean(g, colours[name := Grey], path + [name], base, closing, closures)
    ensures Blacks(colours[name := Grey]) == Blacks(colours)
  {
    hide Reach, Exact;
    var colours', path' := colours[name := Grey], path + [name];
    forall i | base <= i < |path'| - 1 ensures Edge(g, path'[i], path'[i + 1]) {
      if i + 1 < |path| { assert Edge(g, path[i], path[i + 1]); }
    }
    forall n ensures n in colours' && colours'[n].Grey? <==> n in path' {}
    assert colours'.Keys == g.Keys;
  }

  /** Turning the last node of the path black keeps it clean, once everything
      below that node is black. */
  lemma Leave(g: Graph, colours: map<string, Colour>, path: seq<string>, base: nat, closing: bool, closures: map<string, set<string>>, closures': map<string, set<string>>, name: string)
    requires name in g && base <= |path| && Clean(g, colours, path + [name], base, closing, closures)
    requires forall s :: s in g[name] && s in g ==> colours[s].Black?
    requires closures' == if closing && name !in closures then closures[name := Collect(g[name], closures)] else closures
    ensures Clean(g, colours[name := Black], path, base, closing, closures')
    ensures Blacks(colours) <= Blacks(colours[name := Black])
  {
    hide Reach;
    var colours', path' := colours[name := Black], path + [name];
    assert path'[|path|] == name && colours[name].Grey?;
    assert WalkFrom(g, path, base) by {
      forall i | base <= i < |path| - 1 ensures Edge(g, path[i], path[i + 1]) { assert Edge(g, path'[i], path'[i + 1]); }
    }
    assert NoRepeats(path) && name !in path by {
      forall i, j | 0 <= i < j < |path| ensures path[i] != path[j] { assert path'[i] != path'[j]; }
      forall i | 0 <= i < |path| ensures path[i] != name { assert path'[i] != path'[|path|]; }
    }
    forall n ensures n in colours' && colours'[n].Grey? <==> n in path {
      assert n in path' <==> n in path || n == name;
    }
    assert !Reach(g, name, name) by {
      ReachFirst(g, name, name);
      if s :| Edge(g, name, s) && (s == name || Reach(g, s, name)) {
        if s in g { BlackReach(g, colours, path', base, closing, closures, s, name); } else { ReachFirst(g, s, name); }
      }
    }
    if closing && name !in closures { CollectExact(g, closures, name); }
  }

  // ---- What is reported ----

  /** How the final path explains the reports. It falls into one part per
      report, from `marks[k]` to `marks[k + 1]`, each a walk; the report closes
      the path as it was at the end of that part, from `starts[k]` on. */
  ghost predicate Explains(g: Graph, path: seq<string>, marks: seq<nat>, starts: seq<nat>, rs: seq<seq<string>>) {
    && |marks| == |rs| + 1 && |starts| == |rs| && marks[0] == 0 && marks[|rs|] == |path|
    && forall k :: 0 <= k < |rs| ==> Explained(g, path, marks[k], marks[k + 1], starts[k], rs[k])
  }

  ghost predicate Explained(g: Graph, path: seq<string>, from: nat, to: nat, start: nat, r: seq<string>) {
    && from < to <= |path| && WalkFrom(g, path[..to], from) && TurnsBack(g, path[..to], start) && r == Loop(path[..to], start)
  }

  /** The edge that would join a part of the path to what was left before it. */
  predicate Joined(g: Graph, path: seq<string>, mark: nat) { 0 < mark < |path| ==> Edge(g, path[mark - 1], path[mark]) }

  /** A report is a cycle exactly when every part boundary it runs across is an
      edge. In particular one that starts within its own part is a cycle, so
      the first always is. */
  lemma {:induction false} ReportIff(g: Graph, path: seq<string>, marks: seq<nat>, starts: seq<nat>, rs: seq<seq<string>>, k: nat)
    requires Explains(g, path, marks, starts, rs) && k < |rs|
    ensures IsCycle(g, rs[k]) <==> forall j :: 0 <= j <= k && starts[k] < marks[j] ==> Joined(g, path, marks[j])
    ensures starts[k] >= marks[k] ==> IsCycle(g, rs[k])
    ensures IsCycle(g, rs[0])
  {
    hide Edge;
    var r, s, m := rs[k], starts[k], marks[k + 1];
    assert Explained(g, path, marks[k], m, s, r) && Explained(g, path, marks[0], marks[1], starts[0], rs[0]);
    MarksAscend(g, path, marks, starts, rs, k);
    if IsCycle(g, r) {
      forall j | 0 <= j <= k && s < marks[j] ensures Joined(g, path, marks[j]) {
        var i := marks[j] - 1 - s;
        assert marks[j] <= marks[k] < m;
        assert Edge(g, r[i], r[i + 1]) && r[i] == path[marks[j] - 1] && r[i + 1] == path[marks[j]];
      }
    }
    if forall j :: 0 <= j <= k && s < marks[j] ==> Joined(g, path, marks[j]) {
      forall i | 0 <= i < |r| - 1 ensures Edge(g, r[i], r[i + 1]) {
        var p := s + i + 1;
        if p < m {
          PartOf(g, path, marks, starts, rs, k, p);
          assert r[i] == path[p - 1] && r[i + 1] == path[p];
        } else {
          assert r[i] == path[..m][m - 1] && r[i + 1] == path[s];
        }
      }
    }
    FirstIsCycle(g, path, marks[1], starts[0], rs[0]);
  }

  lemma FirstIsCycle(g: Graph, path: seq<string>, to: nat, start: nat, r: seq<string>)
    requires Explained(g, path, 0, to, start, r)
    ensures IsCycle(g, r) && Cyclic(g)
  {
    WalkCloses(g, path[..to], start);
  }

  lemma {:induction false} MarksAscend(g: Graph, path: seq<string>, marks: seq<nat>, starts: seq<nat>, rs: seq<seq<string>>, k: nat)
    requires Explains(g, path, marks, starts, rs) && k <= |rs|
    ensures forall j :: 0 <= j <= k ==> marks[j] <= marks[k] <= |path|
  {
    if k > 0 {
      MarksAscend(g, path, marks, starts, rs, k - 1);
      assert Explained(g, path, marks[k - 1], marks[k], starts[k - 1], rs[k - 1]);
    }
  }

  /** Every step of the path crosses a boundary or is an edge. */
  lemma {:induction false} PartOf(g: Graph, path: seq<string>, marks: seq<nat>, starts: seq<nat>, rs: seq<seq<string>>, k: nat, p: nat)
    requires Explains(g, path, marks, starts, rs) && k < |rs| && 0 < p < marks[k + 1] <= |path|
    ensures Edge(g, path[p - 1], path[p]) || exists j :: 0 <= j <= k && marks[j] == p
  {
    assert Explained(g, path, marks[k], marks[k + 1], starts[k], rs[k]);
    if p < marks[k] {
      PartOf(g, path, marks, starts, rs, k - 1, p);
    } else if p > marks[k] {
      var w := path[..marks[k + 1]];
      assert Edge(g, w[p - 1], w[p]);
    }
  }

  class Search {
    const graph: Graph
    const closing: bool
    var colours: map<string, Colour>
    var path: seq<string>
    var closures: map<string, set<string>>  // absent: not computed yet
    var reports: seq<seq<string>>

    constructor (graph: Graph, closing: bool, given: map<string, set<string>>)
      ensures this.graph == graph && this.closing == closing && this.closures == given
      ensures colours == (map n | n in graph :: White) && path == [] && reports == []
      ensures closing && Exact(graph, given) ==> IsClean(0)
      ensures !closing ==> IsClean(0)
    {
      this.graph := graph;
      this.closing := closing;
      colours := map n | n in graph :: White;
      path := [];
      closures := given;
      reports := [];
    }

    ghost predicate IsClean(base: nat)
      reads this
    {
      Clean(graph, colours, path, base, closing, closures)
    }

    /** The names listed and everything in their closures. */
    method ComputeClosure(supers: seq<string>) returns (closure: set<string>)
      ensures closure == Collect(supers, closures)
    {
      closure := {};
      for i := 0 to |supers|
        invariant closure == Collect(supers[..i], closures)
      {
        CollectMore(supers[..i], supers[i], closures);
        assert supers[..i + 1] == supers[..i] + [supers[i]];
        closure := closure + {supers[i]};
        if supers[i] in closures {
          closure := closure + closures[supers[i]];
        }
      }
      assert supers[..|supers|] == supers;
    }

    /** Where `name` first stands on the path, 0 if it is not there. */
    method CycleStart(name: string) returns (start: nat)
      ensures name in path ==> start < |path| && path[start] == name
      ensures name !in path ==> start == 0
    {
      start := 0;
      var i := 0;
      while i < |path|
        invariant 0 <= i <= |path| && start == 0
        invariant name !in path[..i]
      {
        if path[i] == name { return i; }
        i := i + 1;
      }
    }

    /** Report the part of the path from `name` on, closed up by `name`. */
    method ReportCycle(name: string)
      requires name in path && Edge(graph, path[|path| - 1], name)
      modifies this`reports
      ensures exists start :: TurnsBack(graph, path, start) && reports == old(reports) + [Loop(path, start)]
    {
      var start := CycleStart(name);
      reports := reports + [path[start..] + [name]];
      assert TurnsBack(graph, path, start) && path[start..] + [name] == Loop(path, start);
    }

    /** Visit one node: it and all below it become black and the path is put
        back, or the path grows until it turns back on itself, also on what
        earlier cycles left there, and that is reported. */
    method Visit(name: string, ghost base: nat) returns (found: bool)
      requires name in graph && IsClean(base) && (|path| > base ==> Edge(graph, path[|path| - 1], name))
      requires |path| == base ==> colours[name].White?
      modifies this`colours, this`path, this`closures, this`reports
      ensures IsClean(base) && Whites(colours) <= old(Whites(colours)) && name !in Whites(colours)
      ensures old(path) <= path && Blacks(old(colours)) <= Blacks(colours)
      ensures old(colours[name]).White? && found ==> |path| > |old(path)| && path[|old(path)|] == name
      ensures found ==> exists start :: TurnsBack(graph, path, start) && reports == old(reports) + [Loop(path, start)]
      ensures !found ==> path == old(path) && colours[name].Black? && reports == old(reports)
      ensures forall n :: n in old(closures) ==> n in closures && closures[n] == old(closures[n])
      decreases Whites(colours), 0
    {
      hide Clean, Reach, Collect, Edge;
      CleanKeys(graph, colours, path, base, closing, closures);
      if colours[name].Black? {
        return false;
      }
      if colours[name].Grey? {
        ReportCycle(name);
        return true;
      }
      Enter(graph, colours, path, base, closing, closures, name);
      colours := colours[name := Grey];
      path := path + [name];
      assert name in old(Whites(colours)) && name !in Whites(colours);
      found := VisitAll(name, base);
      if found { return true; }
      Blacken(name, base);
      return false;
    }

    /** The node at the end of the path is finished. */
    method Blacken(name: string, ghost base: nat)
      requires name in graph && |path| > base && path[|path| - 1] == name
      requires IsClean(base) && forall s :: s in graph[name] && s in graph ==> s in colours && colours[s].Black?
      modifies this`colours, this`path, this`closures
      ensures colours == old(colours)[name := Black] && path == old(path[..|path| - 1])
      ensures IsClean(base) && Blacks(old(colours)) <= Blacks(colours)
      ensures forall n :: n in old(closures) ==> n in closures && closures[n] == old(closures[n])
    {
      hide Clean, Collect;
      ghost var before := path[..|path| - 1];
      assert path == before + [name];
      Leave(graph, colours, before, base, closing, closures,
        if closing && name !in closures then closures[name := Collect(graph[name], closures)] else closures, name);
      path := path[..|path| - 1];
      colours := colours[name := Black];
      if closing && name !in closures {
        var closure := ComputeClosure(graph[name]);
        closures := closures[name := closure];
      }
    }

    /** Visit the nodes that `name`, the last on the path, points at. */
    method VisitAll(name: string, ghost base: nat) returns (found: bool)
      requires name in graph && IsClean(base) && |path| > base && path[|path| - 1] == name
      modifies this`colours, this`path, this`closures, this`reports
      ensures IsClean(base) && Whites(colours) <= old(Whites(colours))
      ensures old(path) <= path && Blacks(old(colours)) <= Blacks(colours)
      ensures found ==> exists start :: TurnsBack(graph, path, start) && reports == old(reports) + [Loop(path, start)]
      ensures !found ==> path == old(path) && reports == old(reports)
      ensures !found ==> forall s :: s in graph[name] && s in graph ==> s in Blacks(colours)
      ensures forall n :: n in old(closures) ==> n in closures && closures[n] == old(closures[n])
      decreases Whites(colours), 1
    {
      hide Clean;
      for i := 0 to |graph[name]|
        invariant IsClean(base) && Whites(colours) <= old(Whites(colours)) && Blacks(old(colours)) <= Blacks(colours)
        invariant path == old(path) && reports == old(reports)
        invariant forall j :: 0 <= j < i && graph[name][j] in graph ==> graph[name][j] in Blacks(colours)
        invariant forall n :: n in old(closures) ==> n in closures && closures[n] == old(closures[n])
      {
        var sup := graph[name][i];
        if sup in graph {
          assert Edge(graph, name, sup);
          found := Visit(sup, base);
          if found { return true; }
          CleanKeys(graph, colours, path, base, closing, closures);
          assert sup in Blacks(colours);
        }
      }
      return false;
    }

    /** A finished search has seen a cycle exactly when there is one, and every
        node that leads to none is black. */
    lemma Finished(marks: seq<nat>, starts: seq<nat>)
      requires IsClean(|path|) && Whites(colours) == {} && Explains(graph, path, marks, starts, reports)
      ensures reports != [] <==> Cyclic(graph)
      ensures closing ==> Exact(graph, closures) && forall n :: n in graph && !LeadsToCycle(graph, n) ==> n in closures
    {
      hide Reach, Exact;
      forall n | n in graph ensures colours[n].Black? || (n in path && LeadsToCycle(graph, n)) {
        assert n !in Whites(colours);
        if colours[n].Grey? {
          var i :| 0 <= i < |path| && path[i] == n;
          PathLeadsToCycle(graph, path, marks, starts, reports, |reports|, i);
        }
      }
      if reports != [] {
        assert Explained(graph, path, marks[0], marks[1], starts[0], reports[0]);
        FirstIsCycle(graph, path, marks[1], starts[0], reports[0]);
      }
      if Cyclic(graph) {
        var a :| Reach(graph, a, a);
        ReachFirst(graph, a, a);
        assert a in path;
      }
    }

    /** Visit `name` as a new root, unless something has visited it already. */
    method StartFrom(name: string, ghost marks: seq<nat>, ghost starts: seq<nat>)
      returns (found: bool, ghost marks': seq<nat>, ghost starts': seq<nat>)
      requires name in graph && IsClean(|path|) && Explains(graph, path, marks, starts, reports)
      modifies this`colours, this`path, this`closures, this`reports
      ensures IsClean(|path|) && Explains(graph, path, marks', starts', reports)
      ensures Whites(colours) <= old(Whites(colours)) && name !in Whites(colours)
      ensures if found then reports != [] else reports == old(reports)
      ensures forall n :: n in old(closures) ==> n in closures && closures[n] == old(closures[n])
    {
      hide Reach, Explains, Clean, Edge;
      found, marks', starts' := false, marks, starts;
      CleanKeys(graph, colours, path, |path|, closing, closures);
      if colours[name].White? {
        ghost var before := path;
        ghost var told := reports;
        found := Visit(name, |path|);
        CleanKeys(graph, colours, path, |before|, closing, closures);
        Restart(graph, colours, path, |before|, closing, closures);
        if found {
          ghost var start: nat :| TurnsBack(graph, path, start) && reports == told + [Loop(path, start)];
          ExplainsMore(graph, before, path, marks, starts, told, start);
          marks', starts' := marks + [|path|], starts + [start];
        }
      }
    }

    /** Start from every node that is still white, in any order. */
    method Run(order: seq<string>) returns (hasCycle: bool, ghost marks: seq<nat>, ghost starts: seq<nat>)
      requires IsClean(0) && path == [] && reports == [] && forall n :: n in order <==> n in graph
      modifies this`colours, this`path, this`closures, this`reports
      ensures hasCycle <==> Cyclic(graph)
      ensures hasCycle <==> reports != []
      ensures Explains(graph, path, marks, starts, reports)
      ensures closing ==> Exact(graph, closures) && forall n :: n in graph && !LeadsToCycle(graph, n) ==> n in closures
      ensures forall n :: n in old(closures) ==> n in closures && closures[n] == old(closures[n])
    {
      hide Explains, LeadsToCycle, Clean, Exact, Cyclic;
      hasCycle, marks, starts := false, [0], [];
      ExplainsNone(graph);
      for i := 0 to |order|
        invariant IsClean(|path|) && Explains(graph, path, marks, starts, reports) && (hasCycle <==> reports != [])
        invariant forall j :: 0 <= j < i ==> order[j] !in Whites(colours)
        invariant forall n :: n in old(closures) ==> n in closures && closures[n] == old(closures[n])
      {
        var found;
        assert order[i] in order;
        found, marks, starts := StartFrom(order[i], marks, starts);
        if found { hasCycle := true; }
      }
      CleanKeys(graph, colours, path, |path|, closing, closures);
      assert Whites(colours) == {};
      Finished(marks, starts);
    }
  }

  lemma CleanKeys(g: Graph, colours: map<string, Colour>, path: seq<string>, base: nat, closing: bool, closures: map<string, set<string>>)
    requires Clean(g, colours, path, base, closing, closures)
    ensures colours.Keys == g.Keys && WalkFrom(g, path, base) && forall n :: n in colours && colours[n].Grey? ==> n in path
  {
  }

  lemma ExplainsNone(g: Graph)
    ensures Explains(g, [], [0], [], [])
  {
  }

  lemma ExplainsMore(g: Graph, before: seq<string>, path: seq<string>, marks: seq<nat>, starts: seq<nat>, rs: seq<seq<string>>, start: nat)
    requires Explains(g, before, marks, starts, rs) && before < path && WalkFrom(g, path, |before|) && TurnsBack(g, path, start)
    ensures Explains(g, path, marks + [|path|], starts + [start], rs + [Loop(path, start)])
  {
    hide Edge;
    var marks', starts', rs' := marks + [|path|], starts + [start], rs + [Loop(path, start)];
    forall k | 0 <= k < |rs'| ensures Explained(g, path, marks'[k], marks'[k + 1], starts'[k], rs'[k]) {
      if k < |rs| {
        assert Explained(g, before, marks[k], marks[k + 1], starts[k], rs[k]);
        assert path[..marks[k + 1]] == before[..marks[k + 1]];
      } else {
        assert path[..|path|] == path;
      }
    }
  }

  ghost predicate LeadsToCycle(g: Graph, n: string) { exists c :: Reach(g, c, c) && (n == c || Reach(g, n, c)) }

  lemma WalkReaches(g: Graph, path: seq<string>, base: nat, i: nat, j: nat)
    requires WalkFrom(g, path, base) && base <= i < j < |path|
    ensures Reach(g, path[i], path[j])
  {
    var p := path[i..j + 1];
    forall k | 0 <= k < |p| - 1 ensures Edge(g, p[k], p[k + 1]) { assert Edge(g, path[i + k], path[i + k + 1]); }
    assert Joins(g, p, path[i], path[j]);
  }

  /** From every node of a part one gets to where the part turns back. */
  lemma PartTurns(g: Graph, path: seq<string>, from: nat, to: nat, start: nat, r: seq<string>, i: nat)
    requires Explained(g, path, from, to, start, r) && from <= i < to
    ensures Reach(g, path[i], path[start])
  {
    hide Edge, Reach;
    var p := path[..to];
    ReachEdge(g, p[to - 1], p[start]);
    if i < to - 1 {
      WalkReaches(g, p, from, i, to - 1);
      ReachTrans(g, p[i], p[to - 1], p[start]);
    }
  }

  /** Whatever is left on the path leads to a cycle. */
  lemma {:induction false} PathLeadsToCycle(g: Graph, path: seq<string>, marks: seq<nat>, starts: seq<nat>, rs: seq<seq<string>>, k: nat, i: nat)
    requires Explains(g, path, marks, starts, rs) && k <= |rs| && i < marks[k] <= |path|
    ensures LeadsToCycle(g, path[i])
    decreases k
  {
    hide Reach;
    assert Explained(g, path, marks[k - 1], marks[k], starts[k - 1], rs[k - 1]);
    if i < marks[k - 1] {
      PathLeadsToCycle(g, path, marks, starts, rs, k - 1, i);
    } else {
      var s := starts[k - 1];
      PartTurns(g, path, marks[k - 1], marks[k], s, rs[k - 1], i);
      if s >= marks[k - 1] {
        PartTurns(g, path, marks[k - 1], marks[k], s, rs[k - 1], s);
      } else {
        PathLeadsToCycle(g, path, marks, starts, rs, k - 1, s);
        var c :| Reach(g, c, c) && (path[s] == c || Reach(g, path[s], c));
        if path[s] != c { ReachTrans(g, path[i], path[s], c); }
      }
    }
  }

  /** The superclass graph has a cycle exactly when validation says so. Every
      class that leads to no cycle ends up with its exact closure. */
  method ValidateSuperclassGraph(supers: Graph, order: seq<string>, given: map<string, set<string>>)
    returns (hasCycle: bool, closures: map<string, set<string>>, reports: seq<seq<string>>)
    requires Exact(supers, given) && forall n :: n in order <==> n in supers
    ensures hasCycle <==> Cyclic(supers)
    ensures Exact(supers, closures) && forall n :: n in supers && !LeadsToCycle(supers, n) ==> n in closures
    ensures forall n :: n in given ==> n in closures && closures[n] == given[n]
    ensures hasCycle <==> reports != []
    ensures exists path, marks, starts :: Explains(supers, path, marks, starts, reports)
  {
    var search := new Search(supers, true, given);
    ghost var marks, starts;
    hasCycle, marks, starts := search.Run(order);
    closures, reports := search.closures, search.reports;
  }

  /** The same for type aliases, which need no closures. */
  method ValidateAliasGraph(refs: Graph, order: seq<string>) returns (hasCycle: bool, reports: seq<seq<string>>)
    requires forall n :: n in order <==> n in refs
    ensures hasCycle <==> Cyclic(refs)
    ensures hasCycle <==> reports != []
    ensures exists path, marks, starts :: Explains(refs, path, marks, starts, reports)
  {
    var search := new Search(refs, false, map[]);
    ghost var marks, starts;
    hasCycle, marks, starts := search.Run(order);
    reports := search.reports;
  }

  // ---- A report that is no cycle ----

  /** Class a is its own superclass, b has superclass a. */
  function SelfAndBelow(): Graph { map["a" := ["a"], "b" := ["a"]] }

  /** Neither class can be finished. */
  lemma NeverBlack(g: Graph, colours: map<string, Colour>, path: seq<string>, base: nat, closures: map<string, set<string>>)
    requires g == SelfAndBelow() && Clean(g, colours, path, base, true, closures)
    ensures !colours["a"].Black? && !colours["b"].Black?
  {
    hide Reach;
    assert Edge(g, "a", "a") && Edge(g, "b", "a");
    ReachEdge(g, "a", "a");
  }

  lemma AfterA(g: Graph, colours: map<string, Colour>, path: seq<string>, closures: map<string, set<string>>, start: nat)
    requires g == SelfAndBelow() && Clean(g, colours, path, 0, true, closures)
    requires TurnsBack(g, path, start) && path[0] == "a"
    ensures path == ["a"] && Loop(path, start) == ["a", "a"] && colours["b"].White?
  {
    hide Reach, Exact;
    StepToA(g, path, 0);
    NeverBlack(g, colours, path, 0, closures);
    assert "a" != "b" by { assert "a"[0] != "b"[0]; }
  }

  lemma AfterB(g: Graph, colours: map<string, Colour>, path: seq<string>, closures: map<string, set<string>>, start: nat)
    requires g == SelfAndBelow() && Clean(g, colours, path, 1, true, closures)
    requires TurnsBack(g, path, start) && |path| > 1 && path[0] == "a" && path[1] == "b"
    ensures Loop(path, start) == ["a", "b", "a"]
  {
    hide Reach, Exact;
    StepToA(g, path, 1);
    assert path == ["a", "b"] && path[start] == "a";
    assert "a" != "b" by { assert "a"[0] != "b"[0]; }
    assert start == 0;
  }

  /** In that graph every step leads to a. */
  lemma StepToA(g: Graph, path: seq<string>, base: nat)
    requires g == SelfAndBelow() && WalkFrom(g, path, base) && base < |path| && path[0] == "a"
    ensures |path| > base + 1 ==> path[base + 1] == path[0]
  {
    if |path| > base + 1 { assert Edge(g, path[base], path[base + 1]); }
  }

  lemma OnlySelf(g: Graph)
    requires g == SelfAndBelow()
    ensures IsCycle(g, ["a", "a"]) && !IsCycle(g, ["a", "b", "a"])
  {
    assert "a" != "b" by { assert "a"[0] != "b"[0]; }
    var c := ["a", "b", "a"];
    assert !Edge(g, c[0], c[0 + 1]);
  }

  /** Once a has been reported, starting from b closes up what a left on the
      path: the report says that a has superclass b. */
  method FalseReport() returns (reports: seq<seq<string>>)
    ensures reports == [["a", "a"], ["a", "b", "a"]]
    ensures IsCycle(SelfAndBelow(), reports[0]) && !IsCycle(SelfAndBelow(), reports[1])
  {
    hide Clean, Exact, IsCycle, Edge, Loop;
    var g := SelfAndBelow();
    NothingRecorded(g);
    var search := new Search(g, true, map[]);
    var found := search.Visit("a", 0);
    NeverBlack(g, search.colours, search.path, 0, search.closures);
    ghost var start: nat :| TurnsBack(g, search.path, start) && search.reports == [] + [Loop(search.path, start)];
    AfterA(g, search.colours, search.path, search.closures, start);
    Restart(g, search.colours, search.path, 0, true, search.closures);
    found := search.Visit("b", 1);
    NeverBlack(g, search.colours, search.path, 1, search.closures);
    start :| TurnsBack(g, search.path, start) && search.reports == [["a", "a"]] + [Loop(search.path, start)];
    AfterB(g, search.colours, search.path, search.closures, start);
    reports := search.reports;
    OnlySelf(g);
  }

  lemma NothingRecorded(g: Graph)
    ensures Exact(g, map[])
  {
  }
}
