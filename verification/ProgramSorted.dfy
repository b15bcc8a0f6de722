/**
  Optimizing, then sorting: whatever order the runtime would have loaded the
  original program in, the optimized program loads in the order it is sorted into
  itself. Optimizing adds no mentions but those of inlined dictionaries, so a
  binding that had its place among those it mentions keeps one.
 */
module ProgramSorted {
  import opened CoreIR
  import opened Nameless
  import opened Translate
  import opened Hygiene
  import opened SubstLimits
  import opened Eval
  import opened EvalFacts
  import opened EraseFacts
  import opened Mentions
  import opened NeatTerms
  import opened Rewrites
  import opened DictRules
  import opened Optimizer
  import opened OptimizerRight
  import opened Tidy
  import opened ProgramRight
  import opened ProgramTidy
  import opened LoadOrder
  import opened SortBindings

  // ---- Free variables of neat expressions ----

  lemma {:induction false} FlatFrom<T>(ss: seq<seq<T>>, x: T) returns (i: nat)
    requires x in Flat(ss)
    ensures i < |ss| && x in ss[i]
  {
    if x in ss[0] {
      i := 0;
    } else {
      i := FlatFrom(ss[1..], x);
      i := i + 1;
    }
  }

  lemma {:induction false} BoundVars(p: Pattern, x: Name)
    requires x in Bindings(p)
    ensures x in PatternVars(p) || x in PayloadVars(p)
  {
    match p
    case PVar(_) =>
    case PCon(_, _, args) =>
      var i := FlatFrom(seq(|args|, i requires 0 <= i < |args| => Bindings(args[i])), x);
      BoundVars(args[i], x);
    case PRecord(fs) =>
      var i := FlatFrom(seq(|fs|, i requires 0 <= i < |fs| => Bindings(fs[i].pat)), x);
      BoundVars(fs[i].pat, x);
    case PLabel(_, _) =>
  }

  /** Without label payloads, what a binder binds is what the free-variable
      traversal drops. */
  lemma BoundAreDropped(e: Core, n: nat, q: View -> bool, i: nat)
    requires Neat(e, n, q) && i < |Scopes(e)|
    ensures forall x :: x in Scopes(e)[i].names ==> x in Scopes(e)[i].dropped
  {
    hide Neat, Bindings, PatternVars, PayloadVars;
    if e.Case? && i > 0 {
      var p := e.alts[i - 1].pat;
      NeatCase(e, n, q);
      assert NeatAlt(e.alts[i - 1], n, q);
      forall x | x in Bindings(p) ensures x in PatternVars(p) { BoundVars(p, x); }
      assert Scopes(e)[i].names == Bindings(p) && Scopes(e)[i].dropped == PatternVars(p);
    }
  }

  /** Every free variable of a neat expression shows in its translation. */
  lemma {:induction false} FreeShown(e: Core, n: nat, q: View -> bool, env: Env, G: Keys, k: VarKey)
    requires Neat(e, n, q) && Only(Trans(e, env), G) && k in FreeVars(e) && !(k.mod == "" && k.name in env)
    ensures G(k)
    decreases e
  {
    hide Neat, Scopes, Extend;
    if !e.Var? {
      var ss := Scopes(e);
      var i :| 0 <= i < |ss| && k in FreeVars(ss[i].body) - LocalKeys(ss[i].dropped);
      BoundAreDropped(e, n, q, i);
      NeatSubTerms(e, n, q);
      assert SubTerms(e)[i] == ss[i].body && Neat(SubTerms(e)[i], n, q);
      KidOnly(Trans(e, env), i, G);
      NotUnder(env, ss[i].names, k);
      FreeShown(ss[i].body, n, q, Extend(env, ss[i].names), G, k);
    }
  }

  lemma NotUnder(env: Env, xs: seq<Name>, k: VarKey)
    requires !(k.mod == "" && (k.name in env || k.name in xs))
    ensures !(k.mod == "" && k.name in Extend(env, xs))
  {
  }

  /** The free variables of a neat expression are exactly those its translation mentions. */
  lemma FreeVarsIff(e: Core, n: nat, q: View -> bool, k: VarKey)
    requires Neat(e, n, q)
    ensures k in FreeVars(e) <==> Occurs(Trans(e, map[]), k)
  {
    hide Neat, FreeVars, Trans;
    OnlyOccurs(Trans(e, map[]), k);
    var G: Keys := (g: VarKey) => g != k;
    if k !in FreeVars(e) { TransOnly(e, map[], G); }
    if Only(Trans(e, map[]), G) && k in FreeVars(e) { FreeShown(e, n, q, map[], G, k); }
  }

  lemma {:induction false} OnlyOccurs(t: Term, k: VarKey)
    ensures Occurs(t, k) <==> !Only(t, (g: VarKey) => g != k)
  {
    if t.Node? {
      forall i | 0 <= i < |t.kids| ensures Occurs(t.kids[i].body, k) <==> !Only(t.kids[i].body, (g: VarKey) => g != k) {
        assert t.kids[i].body < t.kids[i];
        OnlyOccurs(t.kids[i].body, k);
      }
    }
  }

  lemma {:induction false} EraseShows(t: Term, G: Keys)
    requires Only(Erase(t), G)
    ensures Only(t, G)
  {
    if t.Node? {
      EraseNode(t.op, t.kids);
      forall i | 0 <= i < |t.kids| ensures Only(t.kids[i].body, G) {
        assert t.kids[i].body < t.kids[i];
        if !Vanishes(t.op, t.kids) { KidOnly(Erase(t), i, G); }
        EraseShows(t.kids[i].body, G);
      }
    }
  }

  /** An optimized expression mentions nothing new but what inlined definitions mention. */
  lemma FreeNarrower(w: World, D: Scope, q: View -> bool, c: Core, n: nat, e: Core, m: nat, G: Keys)
    requires Keeps(w, D, q, c, n, e, m) && Closes(D, G) && forall k :: k in FreeVars(c) ==> G(k)
    ensures forall k :: k in FreeVars(e) ==> G(k)
  {
    hide Neat, Better, Closes, Only, FreeVars, Erase, Trans;
    BetterMeaning(w, D, c, e);
    MeaningOnly(c, G);
    assert Only(Meaning(e), G);
    EraseShows(Trans(e, map[]), G);
    forall k | k in FreeVars(e) ensures G(k) { FreeShown(e, m, q, map[], G, k); }
  }

  // ---- Mentions of the optimized bindings ----

  /** In some world the optimizer keeps the binding. */
  ghost predicate KeptSomewhere(cfg: Config, sch: Scheme, t: Task) {
    exists w: World, m: nat :: Keeps(w, ScopeOf(sch, cfg.dicts), TidyFor(sch), t.b.expr, t.n, Carried(cfg, t).expr, m)
  }

  /** That is where it is loaded. */
  lemma {:induction false} AllKept(w0: World, w: World, external: Dicts, cfg: Config, ts: seq<Task>, schs: seq<Scheme>, n: nat, k: nat, done: World)
    requires Supplies(external, Before(ts), cfg) && TidyProgram(w0, external, cfg, Before(ts), schs, n)
    requires Unbound(w0, Before(ts)) && StartLate(ts, n) && Loaded(w0, w, cfg, Before(ts), k) && Loads(w, Before(ts)[k..], done)
    ensures forall i :: k <= i < |ts| ==> KeptSomewhere(cfg, schs[i], ts[i])
    decreases |ts| - k
  {
    hide Neat, TidyBinding, Loaded, Gives, Passes, PassesGuard, Setting, TidySetting, Supplies, Unbound, Better;
    var bs := Before(ts);
    LoadedCount(w0, w, cfg, bs, k);
    if k < |ts| {
      var b, sch, m := ts[k].b, schs[k], ts[k].n;
      assert bs[k..][0] == b && bs[k..][1..] == bs[k + 1..] && bs[k] == b;
      assert TidyBinding(external, cfg, bs, sch, k, n);
      ExternalHeld(w0, external, cfg, bs, schs, n);
      BindingTidy(w0, w, external, cfg, bs, sch, k, n, m);
      BindingSpined(external, cfg, bs, sch, k, n);
      TidySets(w, sch, cfg, m);
      TidyPasses(w, sch, cfg, b.expr, m, MaxPasses);
      PassesKeep(w, ScopeOf(sch, cfg.dicts), TidyFor(sch), cfg, b.expr, m, MaxPasses);
      var r := Passes(cfg, b.expr, m, MaxPasses);
      assert Carried(cfg, ts[k]).expr == r.0;
      assert Keeps(w, ScopeOf(sch, cfg.dicts), TidyFor(sch), ts[k].b.expr, ts[k].n, Carried(cfg, ts[k]).expr, r.1);
      var f: nat, v :| Gives(w, f, b.expr, v) && Loads(With(w, b.name, v), bs[k + 1..], done);
      LoadedNext(w0, w, external, cfg, bs, k, f, v);
      AllKept(w0, With(w, b.name, v), external, cfg, ts, schs, n, k + 1, done);
    }
  }

  /** Of the bindings, `k` may name `i` and those before position `p`. */
  ghost function Upto(bs: seq<Binding>, order: seq<nat>, p: nat, i: nat): Keys
    requires p <= |order|
  {
    (k: VarKey) => forall j :: 0 <= j < |bs| && bs[j].name == k.name ==> j == i || j in Members(order[..p])
  }

  /** Imported dictionaries mention no binding of the program, by its bare name. */
  ghost predicate Abroad(external: Dicts, bs: seq<Binding>) {
    forall g, k, j :: g in external && k in FreeVars(external[g]) && 0 <= j < |bs| ==> bs[j].name != k.name
  }

  lemma MentionsUpto(w: World, bs: seq<Binding>, order: seq<nat>, m: nat, p: nat, r: nat)
    requires Unbound(w, bs) && SortedTo(bs, order, m) && r <= p < m
    ensures forall k :: k in FreeVars(bs[order[r]].expr) ==> Upto(bs, order, p, order[p])(k)
  {
    hide Unbound, FreeVars;
    var i := order[r];
    forall k, j | k in FreeVars(bs[i].expr) && 0 <= j < |bs| && bs[j].name == k.name ensures j == order[p] || j in Members(order[..p]) {
      if j == i {
        if r < p { assert order[..p][r] == i; }
      } else {
        OwnName(w, bs, j);
        assert k.name in FreeNames(bs[i].expr);
        assert j in Deps(bs, i);
        assert j in Members(order[..r]);
        var s :| 0 <= s < r && order[s] == j;
        assert order[..p][s] == j;
      }
    }
  }

  lemma SettledFree(d: Core, k: VarKey)
    requires k in FreeVars(Settled(d))
    ensures k in FreeVars(d)
  {
    hide FreeVars;
    if Normalized(d).Just? { SpineFree(d, k); }
  }

  lemma SpineFree(d: Core, k: VarKey)
    requires Head(d).Con? && k in FreeVars(Con(Head(d).con, Head(d).mod, SpineArgs(d)))
    ensures k in FreeVars(d)
  {
    var c := Con(Head(d).con, Head(d).mod, SpineArgs(d));
    var i :| 0 <= i < |Scopes(c)| && k in FreeVars(Scopes(c)[i].body) - LocalKeys(Scopes(c)[i].dropped);
    assert Scopes(c)[i].body == SpineArgs(d)[i];
    ArgFree(d, i, k);
  }

  lemma {:induction false} ArgFree(e: Core, i: nat, k: VarKey)
    requires i < |SpineArgs(e)| && k in FreeVars(SpineArgs(e)[i])
    ensures k in FreeVars(e)
  {
    if e.App? {
      var x := if i < |SpineArgs(e.fun)| then 0 else 1;
      if x == 0 { ArgFree(e.fun, i, k); }
      assert k in FreeVars(Scopes(e)[x].body) - LocalKeys(Scopes(e)[x].dropped);
    } else if e.TyApp? {
      ArgFree(e.expr, i, k);
      assert k in FreeVars(Scopes(e)[0].body) - LocalKeys(Scopes(e)[0].dropped);
    }
  }

  /** What may be named is closed under the definitions of dictionaries. */
  lemma UptoCloses(w: World, external: Dicts, rules: seq<Rule>, bs: seq<Binding>, sch: Scheme, order: seq<nat>, m: nat, p: nat)
    requires Unbound(w, bs) && Abroad(external, bs) && SortedTo(bs, order, m) && p < m && sch.strict
    ensures Closes(ScopeOf(sch, ConfigOf(external, rules, bs).dicts), Upto(bs, order, p, order[p]))
  {
    hide Unbound, FreeVars, LocalDicts, IsLocalDict, DictBinding, Settled, Only, Meaning;
    var dicts, G := ConfigOf(external, rules, bs).dicts, Upto(bs, order, p, order[p]);
    forall g | g in dicts && G(g) ensures Only(Meaning(Settled(dicts[g])), G) {
      var d := dicts[g];
      forall k | k in FreeVars(Settled(d)) ensures G(k) {
        SettledFree(d, k);
        if g !in external { DictUpto(w, external, rules, bs, order, m, p, g, k); }
      }
      MeaningOnly(Settled(d), G);
    }
  }

  lemma DictUpto(w: World, external: Dicts, rules: seq<Rule>, bs: seq<Binding>, order: seq<nat>, m: nat, p: nat, g: VarKey, k: VarKey)
    requires Unbound(w, bs) && SortedTo(bs, order, m) && p < m && g in LocalDicts(bs) && k in FreeVars(LocalDicts(bs)[g])
    requires Upto(bs, order, p, order[p])(g)
    ensures Upto(bs, order, p, order[p])(k)
  {
    hide Unbound, FreeVars, LocalDicts, IsLocalDict, DictBinding;
    LocalDictsIff(bs, g);
    var j :| LastDict(bs, g, j);
    assert bs[j].name == g.name;
    var r := p;
    if j != order[p] {
      assert j in Members(order[..p]);
      r :| 0 <= r < p && order[r] == j;
    }
    MentionsUpto(w, bs, order, m, p, r);
  }

  /** A binding with a place among those it mentions mentions, once optimized,
      only those and what stood before it. */
  lemma DepsShrink(w: World, external: Dicts, rules: seq<Rule>, bs: seq<Binding>, cs: seq<Binding>, sch: Scheme, t: Task, order: seq<nat>, m: nat, p: nat)
    requires Unbound(w, bs) && Abroad(external, bs) && SortedTo(bs, order, m) && p < m && sch.strict
    requires |cs| == |bs| && forall j :: 0 <= j < |bs| ==> cs[j].name == bs[j].name
    requires var cfg := ConfigOf(external, rules, bs);
      t.b == bs[order[p]] && KeptSomewhere(cfg, sch, t) && cs[order[p]] == Carried(cfg, t)
    ensures Deps(cs, order[p]) <= Members(order[..p])
  {
    hide Unbound, FreeVars, Keeps, Closes, Abroad, Optimize;
    var cfg, i, G := ConfigOf(external, rules, bs), order[p], Upto(bs, order, p, order[p]);
    var x: World, k: nat :| Keeps(x, ScopeOf(sch, cfg.dicts), TidyFor(sch), t.b.expr, t.n, Carried(cfg, t).expr, k);
    UptoCloses(w, external, rules, bs, sch, order, m, p);
    MentionsUpto(w, bs, order, m, p, p);
    FreeNarrower(x, ScopeOf(sch, cfg.dicts), TidyFor(sch), t.b.expr, t.n, cs[i].expr, k, G);
    forall j | j in Deps(cs, i) ensures j in Members(order[..p]) {
      var key :| key in FreeVars(cs[i].expr) && key.name == cs[j].name;
      assert G(key);
    }
  }

  // ---- The two sorts ----

  /** What each binding with a place mentions now stood before it. */
  ghost predicate Shrunk(cs: seq<Binding>, order: seq<nat>, m: nat)
    requires IsOrder(order, |cs|) && m <= |cs|
  {
    forall p :: 0 <= p < m ==> Deps(cs, order[p]) <= Members(order[..p])
  }

  /** So it has a place in the new sort as well. */
  lemma {:induction false} PrefixStays(cs: seq<Binding>, order: seq<nat>, m: nat, sorted: seq<nat>, m': nat, p: nat, q: nat)
    requires IsOrder(order, |cs|) && m <= |cs| && Shrunk(cs, order, m) && IsSort(cs, sorted, m') && p < m
    requires q < |cs| && sorted[q] == order[p]
    ensures q < m'
    decreases p
  {
    hide Deps;
    if q >= m' {
      assert WaitsOn(cs, sorted, m', q);
      var q' :| m' <= q' < |sorted| && sorted[q'] in Deps(cs, sorted[q]);
      assert sorted[q'] in Members(order[..p]);
      var r :| 0 <= r < p && order[r] == sorted[q'];
      PrefixStays(cs, order, m, sorted, m', r, q');
      assert false;
    }
  }

  /** The rest still comes after all that it came after. */
  lemma TailBehind(cs: seq<Binding>, order: seq<nat>, m: nat, sorted: seq<nat>, m': nat, k: nat)
    requires IsOrder(order, |cs|) && m <= |cs| && Shrunk(cs, order, m) && IsSort(cs, sorted, m') && m' <= k < |cs|
    requires forall p, q :: m <= p < q < |cs| ==> order[p] < order[q]
    ensures Behind(Along(cs, order), Along(cs, sorted), k)
  {
    hide Deps;
    var a, b := Along(cs, order), Along(cs, sorted);
    assert sorted[k] in order;
    var j :| 0 <= j < |order| && order[j] == sorted[k];
    forall r | 0 <= r < j ensures order[r] in sorted[..k] { StillEarlier(cs, order, m, sorted, m', k, j, r); }
    forall g | g in KeysOf(a[..j]) ensures g in KeysOf(b[..k]) {
      var r :| 0 <= r < |a[..j]| && g == KeyOf(a[..j][r]);
      assert a[..j][r] == cs[order[r]];
      var s :| 0 <= s < |sorted[..k]| && sorted[..k][s] == order[r];
      assert b[..k][s] == cs[order[r]];
    }
    assert a[j] == b[k];
  }

  lemma StillEarlier(cs: seq<Binding>, order: seq<nat>, m: nat, sorted: seq<nat>, m': nat, k: nat, j: nat, r: nat)
    requires IsOrder(order, |cs|) && m <= |cs| && Shrunk(cs, order, m) && IsSort(cs, sorted, m') && m' <= k < |cs|
    requires forall p, q :: m <= p < q < |cs| ==> order[p] < order[q]
    requires r < j < |cs| && order[j] == sorted[k]
    ensures order[r] in sorted[..k]
  {
    hide Deps, Shrunk, AllWait;
    assert order[r] in sorted;
    var s :| 0 <= s < |sorted| && sorted[s] == order[r];
    if r < m {
      PrefixStays(cs, order, m, sorted, m', r, s);
    } else if s >= m' {
      assert s != k;
    }
    assert sorted[..k][s] == order[r];
  }

  /** If the original program loads as it is sorted, the optimized program loads
      as it is sorted, with the same first-order data. */
  lemma OptimizeProgramSorted(w: World, external: Dicts, rules: seq<Rule>, prog: seq<Binding>, schs: seq<Scheme>, n: nat, order: seq<nat>, m: nat, done: World, sorted: seq<nat>, m': nat)
    requires WorldOk(w) && Unbound(w, prog) && Foreign(w, prog) && Abroad(external, prog)
    requires IsSort(prog, order, m) && Loads(w, Along(prog, order), done)
    requires TidyProgram(w, external, ConfigOf(external, rules, prog), Along(prog, order), schs, n)
    requires forall i :: 0 <= i < |schs| ==> schs[i].strict
    requires IsSort(OptimizeAll(ConfigOf(external, rules, prog), prog, n).0, sorted, m')
    ensures LoadsLike(w, Along(OptimizeAll(ConfigOf(external, rules, prog), prog, n).0, sorted), done)
  {
    hide Loads, Unbound, TidyProgram, Behind, Deps, OptimizeAll, ConfigOf, Foreign, Abroad, AllWait, LoadsLike;
    var now := OptimizeAll(ConfigOf(external, rules, prog), prog, n).0;
    NowShrunk(w, external, rules, prog, schs, n, order, m, done);
    forall k | m' <= k < |now| ensures Behind(Along(now, order), Along(now, sorted), k) {
      TailBehind(now, order, m, sorted, m', k);
    }
    OptimizeProgramReordered(w, external, rules, prog, schs, n, order, done, sorted, m');
  }

  lemma NowShrunk(w: World, external: Dicts, rules: seq<Rule>, prog: seq<Binding>, schs: seq<Scheme>, n: nat, order: seq<nat>, m: nat, done: World)
    requires WorldOk(w) && Unbound(w, prog) && Abroad(external, prog) && SortedTo(prog, order, m) && Loads(w, Along(prog, order), done)
    requires TidyProgram(w, external, ConfigOf(external, rules, prog), Along(prog, order), schs, n)
    requires forall i :: 0 <= i < |schs| ==> schs[i].strict
    ensures Shrunk(OptimizeAll(ConfigOf(external, rules, prog), prog, n).0, order, m)
  {
    hide Loads, Unbound, TidyBinding, HoldsValue, Deps, OptimizeAll, ConfigOf, Abroad, Supplies, Loaded, Tasks, Carried, KeptSomewhere;
    var cfg, bs := ConfigOf(external, rules, prog), Along(prog, order);
    var all, now := Tasks(cfg, prog, n), OptimizeAll(cfg, prog, n).0;
    var ts := Along(all, order);
    TasksAre(cfg, prog, n);
    NamesStay(cfg, prog, n);
    assert Before(ts) == bs;
    ConfigSupplies(external, rules, prog, order);
    UnboundAlong(w, prog, order);
    LoadedNone(w, external, cfg, bs);
    assert bs[0..] == bs;
    AllKept(w, w, external, cfg, ts, schs, n, 0, done);
    forall p | 0 <= p < m ensures Deps(now, order[p]) <= Members(order[..p]) {
      var t := all[order[p]];
      assert ts[p] == t && Before(all)[order[p]] == t.b && After(cfg, all)[order[p]] == Carried(cfg, t);
      assert KeptSomewhere(cfg, schs[p], ts[p]);
      DepsShrink(w, external, rules, prog, now, schs[p], t, order, m, p);
    }
  }
}
