/**
  Optimizing a whole program: all bindings are replaced, so each runs among
  globals that have changed too. Loading the optimized program succeeds when
  loading the original does, with the same first-order values.
 */
module ProgramRight {
  import opened CoreIR
  import opened Nameless
  import opened Records
  import opened Eval
  import opened EvalFacts
  import opened Contract
  import opened Refine
  import opened Simulate
  import opened Chains
  import opened EraseFacts
  import opened NeatTerms
  import opened Subst
  import opened Rewrites
  import opened Optimizer
  import opened OptimizerRight
  import opened Hygiene

  function With(w: World, name: Name, v: Term): World { World(w.delta, w.globals[VarKey("", name) := v]) }

  /** Evaluating the bindings in order turns `w` into `w'`. */
  ghost predicate Loads(w: World, prog: seq<Binding>, w': World)
    decreases |prog|
  {
    if prog == [] then w' == w
    else exists n: nat, v :: Gives(w, n, prog[0].expr, v) && Loads(With(w, prog[0].name, v), prog[1..], w')
  }

  ghost predicate Gives(w: World, n: nat, e: Core, v: Term) { Ev(w, n, Meaning(e)) == Just(v) }

  /** No binding has the name of a global or of another binding. */
  predicate Unbound(w: World, prog: seq<Binding>) {
    && (forall i :: 0 <= i < |prog| ==> VarKey("", prog[i].name) !in w.globals)
    && (forall i, j :: 0 <= i < j < |prog| ==> prog[i].name != prog[j].name)
  }

  // ---- More globals change nothing ----

  ghost predicate Within(w: World, w': World) {
    w.delta == w'.delta && forall g :: g in w.globals ==> g in w'.globals && w'.globals[g] == w.globals[g]
  }

  lemma {:induction false} EvWithin(w: World, w': World, n: nat, t: Term)
    requires Within(w, w') && Ev(w, n, t).Just?
    ensures Ev(w', n, t) == Ev(w, n, t)
    decreases n, 1, t
  {
    if t.Node? {
      var k := Strict(t.op, |t.kids|);
      EvAllWithin(w, w', n, t.kids, k);
      var vs := EvAll(w, n, t.kids, k).value;
      FinishDelta(w, w', t.op, vs, t.kids[k..]);
      RunWithin(w, w', n, Finish(w, t.op, vs, t.kids[k..]));
    }
  }

  lemma {:induction false} EvAllWithin(w: World, w': World, n: nat, kids: seq<Kid>, k: nat)
    requires Within(w, w') && k <= |kids| && EvAll(w, n, kids, k).Just?
    ensures EvAll(w', n, kids, k) == EvAll(w, n, kids, k)
    decreases n, 1, kids, k
  {
    if k > 0 {
      assert kids[k - 1].body < kids[k - 1];
      EvAllWithin(w, w', n, kids, k - 1);
      EvWithin(w, w', n, kids[k - 1].body);
    }
  }

  lemma {:induction false} RunWithin(w: World, w': World, n: nat, next: Next)
    requires Within(w, w') && Run(w, n, next).Just?
    ensures Run(w', n, next) == Run(w, n, next)
    decreases n, 0
  {
    if next.Go? { EvWithin(w, w', n - 1, Instantiate(next.body, next.args)); }
  }

  ghost predicate WithinSide(s: Side, s': Side) { Within(s.left, s'.left) && Within(s.right, s'.right) }

  lemma {:induction false} ParWithin(s: Side, s': Side, k: nat, t: Term, t': Term)
    requires WithinSide(s, s') && Par(s, k, t, t')
    ensures Par(s', k, t, t')
    decreases k, 0
  {
    hide Ev, Within, Contracts, GoodValue, Closed;
    if Cong(s, k - 1, t, t') {
      CongWithin(s, s', k - 1, t, t');
    } else if Contracted(s, k - 1, t, t') {
      var u :| Cong(s, k - 1, t, u) && Contracts(u, t');
      CongWithin(s, s', k - 1, t, u);
    } else {
      var m: nat, v, m': nat, v' :| Ev(s.left, m, t) == Just(v) && Ev(s.right, m', t') == Just(v') && Cong(s, k - 1, v, v');
      EvWithin(s.left, s'.left, m, t);
      EvWithin(s.right, s'.right, m', t');
      CongWithin(s, s', k - 1, v, v');
    }
  }

  lemma {:induction false} CongWithin(s: Side, s': Side, k: nat, t: Term, t': Term)
    requires WithinSide(s, s') && Cong(s, k, t, t')
    ensures Cong(s', k, t, t')
    decreases k, 1
  {
    hide Within, Par;
    if t.Node? {
      assert CongKids(s, k, t.kids, t'.kids);
      forall i | 0 <= i < |t.kids| ensures Par(s', k, t.kids[i].body, t'.kids[i].body) {
        ParWithin(s, s', k, t.kids[i].body, t'.kids[i].body);
      }
    }
  }

  // ---- Chains of worlds ----

  ghost predicate WorldSteps(n: nat, w: World, w': World) {
    if n == 0 then w == w' && WorldOk(w) else exists x :: Worlds(Side(w, x)) && WorldSteps(n - 1, x, w')
  }

  lemma {:induction false} WorldStepsJoin(n: nat, m: nat, a: World, b: World, c: World)
    requires WorldSteps(n, a, b) && WorldSteps(m, b, c)
    ensures WorldSteps(n + m, a, c)
  {
    hide Worlds;
    if n > 0 {
      var x :| Worlds(Side(a, x)) && WorldSteps(n - 1, x, b);
      WorldStepsJoin(n - 1, m, x, b, c);
    }
  }

  lemma {:induction false} WorldStepsOk(n: nat, w: World, w': World)
    requires WorldSteps(n, w, w')
    ensures WorldOk(w) && WorldOk(w') && w.globals.Keys == w'.globals.Keys
  {
    hide WorldOk, Related1;
    if n > 0 {
      var x :| Worlds(Side(w, x)) && WorldSteps(n - 1, x, w');
      WorldStepsOk(n - 1, x, w');
    }
  }

  /** Related worlds stay related when related values are bound to a new name. */
  lemma WorldsWith(w: World, x: World, name: Name, v: Term, v': Term, j: nat)
    requires Worlds(Side(w, x)) && VarKey("", name) !in w.globals && GoodValue(v) && GoodValue(v') && Cong(Side(w, x), j, v, v')
    ensures Worlds(Side(With(w, name, v), With(x, name, v')))
  {
    hide Cong, GoodValue;
    var w1, x1 := With(w, name, v), With(x, name, v');
    var s, s1 := Side(w, x), Side(w1, x1);
    assert WithinSide(s, s1);
    CongWithin(s, s1, j, v, v');
    forall g | g in w1.globals ensures Related1(s1, w1.globals[g], x1.globals[g]) {
      if g != VarKey("", name) {
        assert Related1(s, w.globals[g], x.globals[g]);
        var i: nat :| Cong(s, i, w.globals[g], x.globals[g]);
        CongWithin(s, s1, i, w.globals[g], x.globals[g]);
      }
    }
  }

  /** What evaluates in one world evaluates in each world of a chain, and
      binding the results prolongs the chain. */
  lemma {:induction false} Cross(n: nat, w: World, w': World, f: nat, t: Term, name: Name) returns (f': nat, v': Term)
    requires WorldSteps(n, w, w') && Closed(t, 0) && Ev(w, f, t).Just? && VarKey("", name) !in w.globals
    ensures Ev(w', f', t) == Just(v') && WorldSteps(n, With(w, name, Ev(w, f, t).value), With(w', name, v'))
    decreases n
  {
    hide Ev, Closed, Cong, GoodValue, Related1, IsValue;
    EvGood(w, f, t) by { WorldStepsOk(n, w, w'); }
    var v := Ev(w, f, t).value;
    if n == 0 {
      f', v' := f, v;
      WithOk(w, name, v);
    } else {
      var x :| Worlds(Side(w, x)) && WorldSteps(n - 1, x, w');
      var k := CongRefl(Side(w, x), t);
      ParRefl(Side(w, x), k, t);
      var m, j := Sim(Side(w, x), f, k + 1, t, t);
      EvGood(x, m, t);
      WorldsWith(w, x, name, v, Ev(x, m, t).value, j);
      f', v' := Cross(n - 1, x, w', m, t, name);
    }
  }

  lemma ParRefl(s: Side, k: nat, t: Term)
    requires Cong(s, k, t, t)
    ensures Par(s, k + 1, t, t)
  {
  }

  lemma WithOk(w: World, name: Name, v: Term)
    requires WorldOk(w) && GoodValue(v)
    ensures WorldOk(With(w, name, v))
  {
  }

  /** Contracting the term of a binding prolongs the chain within one world. */
  lemma {:induction false} Follow(s: nat, w: World, f: nat, t: Term, t': Term, name: Name) returns (f': nat, v': Term)
    requires WorldOk(w) && Closed(t, 0) && Steps(w, s, t, t') && Ev(w, f, t).Just? && VarKey("", name) !in w.globals
    ensures Ev(w, f', t') == Just(v') && WorldSteps(s, With(w, name, Ev(w, f, t).value), With(w, name, v'))
    decreases s
  {
    hide Ev, Closed, Cong, GoodValue, Related1, WorldOk;
    EvGood(w, f, t);
    var v := Ev(w, f, t).value;
    if s == 0 {
      f', v' := f, v;
      WithOk(w, name, v);
    } else {
      var u :| OneStep(w, t, u) && Steps(w, s - 1, u, t');
      var k: nat :| Par(Both(w), k, t, u);
      SameWorld(w);
      var m, j := Sim(Both(w), f, k, t, u);
      ParClosed(Both(w), k, t, u, 0);
      EvGood(w, m, u);
      WorldsWith(w, w, name, v, Ev(w, m, u).value, j);
      f', v' := Follow(s - 1, w, m, u, t', name);
    }
  }

  // ---- The counter never goes back ----

  lemma {:induction false} RenameEachCounter(p: Pattern, b: Core, ds: seq<Draw>, n: nat)
    ensures n <= RenameEach(p, b, ds, n).2
    decreases |ds|
  {
    hide SubstMany;
    if ds != [] {
      var r := SubstMany(b, map[ds[0].was := Var(ds[0].now, "")], {ds[0].now}, n);
      RenameEachCounter(RenamePatternVar(p, ds[0].was, ds[0].now), r.0, ds[1..], r.1);
    }
  }

  lemma {:induction false} DrawsCounter(bs: seq<Name>, fv: set<Name>, n: nat)
    ensures n <= Draws(bs, fv, n).1
  {
    if bs != [] { DrawsCounter(bs[1..], fv, if bs[0] in fv then n + 1 else n); }
  }

  lemma {:induction false} PushCounter(alts: seq<Alt>, fr: Frame, n: nat)
    ensures n <= PushInto(alts, fr, n).1
  {
    hide RenameEach, Draws, FrameNames;
    if alts != [] {
      var d := Draws(Bindings(alts[0].pat), FrameNames(fr), n);
      DrawsCounter(Bindings(alts[0].pat), FrameNames(fr), n);
      RenameEachCounter(alts[0].pat, alts[0].body, d.0, d.1);
      PushCounter(alts[1..], fr, AvoidCapture(alts[0].pat, alts[0].body, FrameNames(fr), n).2);
    }
  }

  lemma CommuteCounter(c: Core, n: nat)
    ensures n <= CaseOfCase(c, n).n && n <= BindOfCase(c, n).n
  {
    hide PushInto;
    if c.Case? && c.scrutinee.Case? { PushCounter(c.scrutinee.alts, InCase(c.alts), n); }
    if c.Bind? && c.comp.Case? { PushCounter(c.comp.alts, InBind(c.bvar, c.isDiscard, c.body), n); }
  }

  lemma AlgebraicCounter(c: Core, n: nat)
    ensures n <= Algebraic(c, n).n
  {
    hide SubstMany, FreeNames, CollectArgSubs, CtorAlt, LitAlt, CaseOfCase, BindOfCase, SubstTyVarInCore;
    var o := Then(Then(Then(Then(Then(KnownLit(c, n), BindPureElim), ForceThunkElim), RecordProjKnown), RecordUpdateChain), PrimOpAbsorb);
    CommuteCounter(o.e, o.n);
    var o1 := Then(o, CaseOfCase);
    CommuteCounter(o1.e, o1.n);
  }

  lemma DictCounter(dicts: Dicts, c: Core, n: nat)
    ensures n <= CaseOfKnownDict(dicts, c, n).n
  {
    hide SubstMany, CollectArgSubs, CtorAlt, Normalized;
  }

  lemma {:induction false} RegisteredCounter(rules: seq<Rule>, o: Out)
    ensures o.n <= Registered(rules, o).n
    decreases |rules|
  {
    if rules != [] { RegisteredCounter(rules[1..], Then(o, rules[0])); }
  }

  lemma ApplyCounter(cfg: Config, c: Core, n: nat)
    ensures n <= ApplyRules(cfg, c, n).n
  {
    hide Algebraic, CaseOfKnownDict;
    AlgebraicCounter(c, n);
    DictCounter(cfg.dicts, Algebraic(c, n).e, Algebraic(c, n).n);
    RegisteredCounter(cfg.rules, KnownDict(cfg, c, n));
  }

  lemma {:induction false} PassCounter(cfg: Config, e: Core, n: nat)
    ensures n <= Pass(cfg, e, n).n
    decreases e, 1
  {
    hide ApplyRules, PassAll, WithKids;
    var es := if e.App? then [e.arg, e.fun] else SubTerms(e);
    PassAllCounter(cfg, e, es, n);
    var p := if e.App? then Flipped(PassAll(cfg, e, es, n)) else PassAll(cfg, e, es, n);
    ApplyCounter(cfg, WithKids(e, p.es), p.n);
  }

  lemma {:induction false} PassAllCounter(cfg: Config, e: Core, es: seq<Core>, n: nat)
    requires forall i :: 0 <= i < |es| ==> es[i] < e
    ensures n <= PassAll(cfg, e, es, n).n
    decreases e, 0, |es|
  {
    hide Pass;
    if es != [] {
      PassCounter(cfg, es[0], n);
      PassAllCounter(cfg, e, es[1..], Pass(cfg, es[0], n).n);
    }
  }

  lemma {:induction false} PassesCounter(cfg: Config, e: Core, n: nat, k: nat)
    ensures n <= Passes(cfg, e, n, k).1
    decreases k
  {
    hide Pass;
    if k > 0 {
      PassCounter(cfg, e, n);
      var o := Pass(cfg, e, n);
      if o.fired { PassesCounter(cfg, o.e, o.n, k - 1); }
    }
  }

  // ---- Bindings and the order they are loaded in ----

  /** A binding and the counter it is optimized with. */
  datatype Task = Task(b: Binding, n: nat)

  function Tasks(cfg: Config, prog: seq<Binding>, n: nat): (ts: seq<Task>)
    ensures |ts| == |prog|
  {
    if prog == [] then [] else [Task(prog[0], n)] + Tasks(cfg, prog[1..], Optimize(cfg, prog[0].expr, n).1)
  }

  function Before(ts: seq<Task>): seq<Binding> { seq(|ts|, i requires 0 <= i < |ts| => ts[i].b) }

  function Carried(cfg: Config, t: Task): Binding { t.b.(expr := Optimize(cfg, t.b.expr, t.n).0) }

  function After(cfg: Config, ts: seq<Task>): seq<Binding> { seq(|ts|, i requires 0 <= i < |ts| => Carried(cfg, ts[i])) }

  lemma {:induction false} TasksAre(cfg: Config, prog: seq<Binding>, n: nat)
    ensures Before(Tasks(cfg, prog, n)) == prog && After(cfg, Tasks(cfg, prog, n)) == OptimizeAll(cfg, prog, n).0
    ensures forall i :: 0 <= i < |prog| ==> n <= Tasks(cfg, prog, n)[i].n
  {
    hide Passes;
    if prog != [] {
      PassesCounter(cfg, prog[0].expr, n, MaxPasses);
      TasksAre(cfg, prog[1..], Optimize(cfg, prog[0].expr, n).1);
    }
  }

  /** An order in which to go through `k` things: each comes once. */
  ghost predicate IsOrder(order: seq<nat>, k: nat) {
    && |order| == k && (forall i :: 0 <= i < k ==> order[i] < k) && Distinct(order)
    && forall j :: 0 <= j < k ==> j in order
  }

  function Along<T>(s: seq<T>, order: seq<nat>): (r: seq<T>)
    requires forall i :: 0 <= i < |order| ==> order[i] < |s|
    ensures |r| == |order|
  {
    seq(|order|, i requires 0 <= i < |order| => s[order[i]])
  }

  lemma UnboundAlong(w: World, prog: seq<Binding>, order: seq<nat>)
    requires Unbound(w, prog) && IsOrder(order, |prog|)
    ensures Unbound(w, Along(prog, order))
  {
  }

  // ---- Whole programs ----

  /** One binding: contract it among the original globals, then move to the
      optimized ones. */
  lemma LoadOne(n: nat, w: World, w': World, D: Scope, f: nat, e: Core, e': Core, name: Name) returns (k: nat, f': nat, v': Term)
    requires WorldSteps(n, w, w') && Ev(w, f, Meaning(e)).Just? && VarKey("", name) !in w.globals && Better(w, D, e, e')
    ensures Gives(w', f', e', v') && WorldSteps(k, With(w, name, Ev(w, f, Meaning(e)).value), With(w', name, v'))
  {
    hide Ev, Closed, Er, WorldSteps, Steps, Meaning, Better;
    MeaningClosed(e);
    MeaningClosed(e');
    WorldStepsOk(n, w, w');
    BetterMeaning(w, D, e, e');
    var s: nat :| Steps(w, s, Meaning(e), Meaning(e'));
    var f1, v1 := Follow(s, w, f, Meaning(e), Meaning(e'), name);
    f', v' := Cross(n, w, w', f1, Meaning(e'), name);
    k := s + n;
    WorldStepsJoin(s, n, With(w, name, Ev(w, f, Meaning(e)).value), With(w, name, v1), With(w', name, v'));
  }

  /** One binding is neat, what the optimizer relies on holds where the binding
      is evaluated, and optimizing it stays within the guards. */
  ghost predicate BindingOk(w: World, cfg: Config, e: Core, n: nat) {
    PassesGuard(w, cfg, e, n, MaxPasses) && exists D: Scope, q: View -> bool :: Setting(w, D, q, cfg, n) && Neat(e, n, q)
  }

  /** This holds of each binding in the world that those loaded before it make. */
  ghost predicate Guarded(w: World, cfg: Config, ts: seq<Task>)
    decreases |ts|
  {
    ts == [] ||
    (BindingOk(w, cfg, ts[0].b.expr, ts[0].n) && forall f: nat, v ::
       Gives(w, f, ts[0].b.expr, v) ==> Guarded(With(w, ts[0].b.name, v), cfg, ts[1..]))
  }

  lemma {:induction false} ProgramKeeps(k: nat, w: World, w': World, cfg: Config, ts: seq<Task>, done: World)
    returns (k': nat, done': World)
    requires WorldSteps(k, w, w') && Unbound(w, Before(ts)) && Guarded(w, cfg, ts) && Loads(w, Before(ts), done)
    ensures Loads(w', After(cfg, ts), done') && WorldSteps(k', done, done')
    decreases |ts|
  {
    hide Ev, Better, WorldSteps, Meaning, Neat, Setting, PassesGuard, Passes;
    if ts == [] {
      k', done' := k, w';
    } else {
      var b, o := ts[0].b, Optimize(cfg, ts[0].b.expr, ts[0].n);
      var bs, rest := Before(ts), Before(ts[1..]);
      assert bs[0] == b && bs[1..] == rest;
      var f: nat, v :| Gives(w, f, b.expr, v) && Loads(With(w, b.name, v), rest, done);
      var D: Scope, q: View -> bool :| Setting(w, D, q, cfg, ts[0].n) && Neat(b.expr, ts[0].n, q);
      PassesKeep(w, D, q, cfg, b.expr, ts[0].n, MaxPasses);
      var k1, f', v' := LoadOne(k, w, w', D, f, b.expr, o.0, b.name);
      var w1 := With(w, b.name, v);
      UnboundNext(w, bs, v);
      k', done' := ProgramKeeps(k1, w1, With(w', b.name, v'), cfg, ts[1..], done);
      var all := After(cfg, ts);
      assert all[0] == b.(expr := o.0) && all[1..] == After(cfg, ts[1..]);
      assert Gives(w', f', all[0].expr, v');
    }
  }

  lemma UnboundNext(w: World, prog: seq<Binding>, v: Term)
    requires Unbound(w, prog) && prog != []
    ensures Unbound(With(w, prog[0].name, v), prog[1..])
  {
  }

  lemma WorldsAt(w: World, x: World, g: VarKey)
    requires Worlds(Side(w, x)) && g in w.globals
    ensures g in x.globals && GoodValue(w.globals[g]) && GoodValue(x.globals[g])
    ensures Related1(Side(w, x), w.globals[g], x.globals[g])
  {
  }

  lemma {:induction false} GroundKept(n: nat, w: World, w': World, g: VarKey)
    requires WorldSteps(n, w, w') && g in w.globals && Ground(w.globals[g])
    ensures g in w'.globals && w'.globals[g] == w.globals[g]
  {
    hide Cong, Ground, Closed, Worlds, IsValue;
    if n > 0 {
      var x :| Worlds(Side(w, x)) && WorldSteps(n - 1, x, w');
      WorldsAt(w, x, g);
      var j: nat :| Cong(Side(w, x), j, w.globals[g], x.globals[g]);
      GroundSame(Side(w, x), j, w.globals[g], x.globals[g]);
      GroundKept(n - 1, x, w', g);
    }
  }

  /** The program loads, and every global that is first-order data in `done`
      is the same. */
  ghost predicate LoadsLike(w: World, prog: seq<Binding>, done: World) {
    exists done' :: Loads(w, prog, done') && done'.globals.Keys == done.globals.Keys
      && forall g :: g in done.globals && Ground(done.globals[g]) ==> done'.globals[g] == done.globals[g]
  }

  /** If the original program loads in some order, the optimized one loads in
      the same order, with the same first-order data. Bindings are optimized in
      the order they are listed in, whatever the order of loading. */
  lemma OptimizeProgramRight(w: World, cfg: Config, prog: seq<Binding>, n: nat, order: seq<nat>, done: World)
    requires WorldOk(w) && Unbound(w, prog) && IsOrder(order, |prog|)
    requires Guarded(w, cfg, Along(Tasks(cfg, prog, n), order)) && Loads(w, Along(prog, order), done)
    ensures LoadsLike(w, Along(OptimizeAll(cfg, prog, n).0, order), done)
  {
    hide Loads, Guarded, WorldSteps, Ground, OptimizeAll, Optimize;
    StartWorld(w);
    TasksAre(cfg, prog, n);
    UnboundAlong(w, prog, order);
    var ts := Along(Tasks(cfg, prog, n), order);
    assert Before(ts) == Along(prog, order);
    assert After(cfg, ts) == Along(OptimizeAll(cfg, prog, n).0, order);
    var k, done' := ProgramKeeps(0, w, w, cfg, ts, done);
    WorldStepsOk(k, done, done');
    forall g | g in done.globals && Ground(done.globals[g]) ensures done'.globals[g] == done.globals[g] {
      GroundKept(k, done, done', g);
    }
  }

  lemma StartWorld(w: World)
    requires WorldOk(w)
    ensures WorldSteps(0, w, w)
  {
  }
}
