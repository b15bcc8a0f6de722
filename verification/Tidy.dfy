/**
  A condition on the input alone under which every rewrite stays within its
  guard: constructors have one arity and module each and hold all their
  arguments or none, those that patterns name are given all of them, patterns
  are simple and catch-alls last, and no function binds a name that patterns
  bind. Names drawn in renaming count as the names they were drawn for.
 */
module Tidy {
  import opened CoreIR
  import opened Nameless
  import opened Translate
  import opened FreshNames
  import opened Subst
  import opened Hygiene
  import opened SubstCorrect
  import opened Eval
  import opened EvalFacts
  import opened NeatTerms
  import opened Rewrites
  import opened KnownRules
  import opened DictRules
  import opened Optimizer
  import opened OptimizerRight
  import opened Spines

  // ---- Roots of names ----

  /** The name that a drawn name goes back to. */
  ghost function Root(x: Name): Name
    decreases |x|
  {
    if exists b, m :: x == FreshName(b, m) then
      var b, m :| x == FreshName(b, m); Root(b)
    else x
  }

  lemma RootFresh(b: Name, m: nat)
    ensures Root(FreshName(b, m)) == Root(b)
  {
    hide FreshName;
    var x := FreshName(b, m);
    forall b', m' | x == FreshName(b', m') ensures b' == b { FreshInjective(b', m', b, m); }
  }

  lemma RootFresher(x: Name, y: Name, n: nat)
    requires Fresher(x, y, n)
    ensures Root(y) == Root(x)
  {
    hide Root, FreshName;
    if y != x {
      var m :| n < m && y == FreshName(x, m);
      RootFresh(x, m);
    }
  }

  // ---- The condition ----

  /** The constructors, the roots of pattern variables, the names that no binder
      may have, the names that may not be mentioned at all, and whether registered
      rules mention no new globals. */
  datatype Scheme = Scheme(sigs: Sigs, pats: set<Name>, kept: set<Name>, banned: set<Name>, strict: bool)

  ghost function ScopeOf(sch: Scheme, dicts: Dicts): Scope {
    Scope(sch.kept, map g | g in dicts :: Settled(dicts[g]), sch.strict)
  }

  ghost predicate Away(x: Name, names: set<Name>) { forall y :: y in names ==> Root(x) != Root(y) }

  /** A pattern that a term of the right constructor need not be inspected for. */
  predicate Simple(p: Shape) {
    match p
    case SVar => true
    case SWild => true
    case SRecord(fs) => forall i :: 0 <= i < |fs| ==> (assert fs[i].pat < fs[i]; Simple(fs[i].pat))
    case _ => false
  }

  predicate CatchAll(p: Shape) { p.SVar? || p.SWild? }

  /** The constructor pattern `p` is simple, and if it can fail on its own
      constructor, then no later pattern can match it. */
  predicate TidyCon(sigs: Sigs, p: Shape, later: seq<Shape>)
    requires p.SCon?
  {
    && p.con in sigs && sigs[p.con] == Sig(p.mod, |p.args|)
    && (forall k :: 0 <= k < |p.args| ==> Simple(p.args[k]))
    && ((forall k :: 0 <= k < |p.args| ==> CatchAll(p.args[k]))
        || forall j :: 0 <= j < |later| ==> !CatchAll(later[j]) && (later[j].SCon? ==> later[j].con != p.con))
  }

  predicate TidyShapes(sigs: Sigs, ps: seq<Shape>) {
    && (forall i :: 0 <= i < |ps| && CatchAll(ps[i]) ==> i == |ps| - 1)
    && (forall i :: 0 <= i < |ps| && ps[i].SCon? ==> TidyCon(sigs, ps[i], ps[i + 1..]))
  }

  ghost predicate TidyView(sch: Scheme, v: View) {
    match v
    case FunView(x) => Root(x) !in sch.pats && Away(x, sch.kept)
    case BindView(x) => Away(x, sch.kept)
    case CaseView(ps, xss) =>
      TidyShapes(sch.sigs, ps) && forall i, x :: 0 <= i < |xss| && x in xss[i] ==> Root(x) in sch.pats && Away(x, sch.kept)
    case ConView(c, m, k) => c in sch.sigs ==> sch.sigs[c].mod == m && (k == 0 || k == sch.sigs[c].arity)
    case VarView(x, m) => m == "" ==> Away(x, sch.banned)
    case OtherView => true
  }

  ghost function TidyFor(sch: Scheme): View -> bool { (v: View) => TidyView(sch, v) }

  lemma AwayFresher(x: Name, y: Name, n: nat, names: set<Name>)
    requires Fresher(x, y, n)
    ensures Root(y) == Root(x) && (Away(x, names) ==> Away(y, names))
  {
    hide Root, Fresher;
    RootFresher(x, y, n);
  }

  lemma TidyCaseFresher(sch: Scheme, n: nat, ps: seq<Shape>, xss: seq<seq<Name>>, yss: seq<seq<Name>>)
    requires FresherLists(xss, yss, n) && TidyView(sch, CaseView(ps, xss))
    ensures TidyView(sch, CaseView(ps, yss))
  {
    hide Root, TidyShapes, Fresher, Away;
    forall i, y | 0 <= i < |yss| && y in yss[i] ensures Root(y) in sch.pats && Away(y, sch.kept) {
      var j :| 0 <= j < |yss[i]| && yss[i][j] == y;
      assert FresherAll(xss[i], yss[i], n);
      assert xss[i][j] in xss[i];
      AwayFresher(xss[i][j], y, n, sch.kept);
    }
  }

  lemma TidyStable(sch: Scheme, n: nat)
    requires sch.banned <= sch.kept
    ensures Stable(TidyFor(sch), n)
  {
    hide Root, TidyShapes, Fresher, FresherLists;
    var q := TidyFor(sch);
    assert q(OtherView);
    forall x, y | Fresher(x, y, n) ensures Root(y) == Root(x) { RootFresher(x, y, n); }
    forall ps, xss, yss | FresherLists(xss, yss, n) && q(CaseView(ps, xss)) ensures q(CaseView(ps, yss)) {
      TidyCaseFresher(sch, n, ps, xss, yss);
    }
    forall ps, xss, i, x | q(CaseView(ps, xss)) && 0 <= i < |xss| && x in xss[i] ensures q(VarView(x, "")) {
      assert TidyView(sch, CaseView(ps, xss));
    }
  }

  lemma TidyClears(sch: Scheme, dicts: Dicts)
    ensures Clears(TidyFor(sch), ScopeOf(sch, dicts))
  {
    hide Root, TidyShapes;
    var q := TidyFor(sch);
    forall x | q(FunView(x)) ensures x !in sch.kept { assert TidyView(sch, FunView(x)); }
    forall x | q(BindView(x)) ensures x !in sch.kept { assert TidyView(sch, BindView(x)); }
    forall ps, xss, i, x | q(CaseView(ps, xss)) && 0 <= i < |xss| && x in xss[i] ensures x !in sch.kept {
      assert TidyView(sch, CaseView(ps, xss));
      assert Away(x, sch.kept);
    }
  }

  // ---- It implies the guards ----

  lemma {:induction false} TidyFuns(e: Core, n: nat, sch: Scheme, fs: set<Name>)
    requires Hygienic(e, n, Avoid({}, TidyFor(sch))) && forall x :: x in fs ==> Root(x) in sch.pats
    ensures FunsAvoid(e, fs)
  {
    hide Root, Scopes, TidyShapes;
    if !e.Var? {
      var ss := Scopes(e);
      forall i | 0 <= i < |ss| ensures FunsAvoid(ss[i].body, fs) { TidyFuns(ss[i].body, n, sch, fs); }
    } else {
      NoScopes(e);
    }
  }

  lemma NoScopes(e: Core)
    requires e.Var?
    ensures Scopes(e) == []
  {
  }

  lemma {:induction false} SimpleFits(p: Pattern, val: Core)
    requires Simple(ShapeOf(p))
    ensures Fits(p, val)
  {
    hide FieldTerm;
    if p.PRecord? {
      var fs := p.fields;
      forall i | 0 <= i < |fs| ensures Fits(fs[i].pat, FieldTerm(val, fs[i].lbl)) {
        assert fs[i].pat < fs[i];
        assert ShapeOf(p).fields[i].pat == ShapeOf(fs[i].pat);
        SimpleFits(fs[i].pat, FieldTerm(val, fs[i].lbl));
      }
    }
  }

  lemma ConFits(p: Pattern, con: Core, sigs: Sigs, later: seq<Shape>)
    requires p.PCon? && con.Con? && con.con == p.con && TidyCon(sigs, ShapeOf(p), later) && sigs[p.con] == Sig(con.mod, |con.args|)
    ensures Fits(p, con)
    ensures Sure(p, con) || forall j :: 0 <= j < |later| ==> !CatchAll(later[j]) && (later[j].SCon? ==> later[j].con != p.con)
  {
    forall k | 0 <= k < |p.args| ensures Fits(p.args[k], con.args[k]) {
      assert ShapeOf(p).args[k] == ShapeOf(p.args[k]);
      SimpleFits(p.args[k], con.args[k]);
    }
    if forall k :: 0 <= k < |p.args| ==> CatchAll(ShapeOf(p).args[k]) {
      forall k | 0 <= k < |p.args| ensures Sure(p.args[k], con.args[k]) {
        assert CatchAll(ShapeOf(p).args[k]) && ShapeOf(p).args[k] == ShapeOf(p.args[k]);
      }
    }
  }

  lemma TidyCtor(c: Core, n: nat, sch: Scheme, due: nat)
    requires Neat(c, n, TidyFor(sch)) && Spined(sch.sigs, c, due)
    ensures CtorGuard(c)
  {
    hide Root, Neat, SubstMany, CollectArgSubs, Fits, Sure, Crossed, FunsAvoid, Bindings, Simple, Away;
    if CaseOfKnownCtor(c, 0).fired {
      var con, q := c.scrutinee, TidyFor(sch);
      var i, k := CtorAlt(c.alts, con.con, con.mod), |con.args|;
      NeatCase(c, n, q);
      NeatAccepted(con, n, q);
      assert Spined(sch.sigs, con, 0);
      CtorAltFirst(c.alts, con.con, con.mod);
      var ps := ShapesOf(c.alts);
      var p := c.alts[i].pat;
      ConShape(p);
      assert TidyCon(sch.sigs, ps[i], ps[i + 1..]);
      ConFits(p, con, sch.sigs, ps[i + 1..]);
      forall j | 0 <= j < i ensures MissesCon(c.alts[j].pat, con.con, k) { EarlierMisses(c, sch, i, j); }
      if !Sure(p, con) {
        forall j | i < j < |c.alts| ensures MissesCon(c.alts[j].pat, con.con, k) { LaterMisses(c, i, j, con.con, k); }
      }
      TidyCrossed(c, n, sch, i);
    }
  }

  lemma ConShape(p: Pattern)
    requires p.PCon?
    ensures ShapeOf(p).SCon? && ShapeOf(p).con == p.con && ShapeOf(p).mod == p.mod && |ShapeOf(p).args| == |p.args|
  {
  }

  lemma EarlierMisses(c: Core, sch: Scheme, i: nat, j: nat)
    requires c.Case? && c.scrutinee.Con? && j < i < |c.alts| && TidyShapes(sch.sigs, ShapesOf(c.alts))
    requires c.scrutinee.con in sch.sigs && sch.sigs[c.scrutinee.con] == Sig(c.scrutinee.mod, |c.scrutinee.args|)
    requires var p := c.alts[j].pat; !(p.PCon? && p.con == c.scrutinee.con && p.mod == c.scrutinee.mod)
    ensures MissesCon(c.alts[j].pat, c.scrutinee.con, |c.scrutinee.args|)
  {
    hide Simple;
    var ps, p := ShapesOf(c.alts), c.alts[j].pat;
    assert ps[j] == ShapeOf(p);
    if p.PCon? {
      ConShape(p);
      assert TidyCon(sch.sigs, ps[j], ps[j + 1..]);
    }
  }

  lemma LaterMisses(c: Core, i: nat, j: nat, con: string, k: nat)
    requires c.Case? && i < j < |c.alts|
    requires var later := ShapesOf(c.alts)[i + 1..];
      forall l :: 0 <= l < |later| ==> !CatchAll(later[l]) && (later[l].SCon? ==> later[l].con != con)
    ensures MissesCon(c.alts[j].pat, con, k)
  {
    var later := ShapesOf(c.alts)[i + 1..];
    assert later[j - i - 1] == ShapeOf(c.alts[j].pat);
  }

  /** Only pattern variables are replaced, and no function binds one. */
  lemma TidyCrossed(c: Core, n: nat, sch: Scheme, i: nat)
    requires c.Case? && c.scrutinee.Con? && Neat(c, n, TidyFor(sch)) && i < |c.alts|
    requires i == CtorAlt(c.alts, c.scrutinee.con, c.scrutinee.mod) && Fits(c.alts[i].pat, c.scrutinee)
    ensures FunsAvoid(c.alts[i].body, Crossed(CtorSubs(c)))
  {
    hide Root, Hygienic, Fits, CollectArgSubs, Bindings, FunsAvoid, Met, IsLocal, TidyShapes;
    var q, alt := TidyFor(sch), c.alts[i];
    NeatCase(c, n, q);
    assert NeatAlt(alt, n, q);
    CtorCollected(c, i);
    var xs, vs := Bindings(alt.pat), Met(alt.pat, c.scrutinee);
    PutAllIs(Collected(map[], {}), xs, vs);
    var fs := Crossed(CtorSubs(c));
    forall x | x in fs ensures Root(x) in sch.pats {
      assert x in xs && xs == NamesOf(c.alts)[i];
    }
    TidyFuns(alt.body, n, sch, fs);
  }

  lemma TidyLit(c: Core, n: nat, sch: Scheme)
    requires Neat(c, n, TidyFor(sch))
    ensures LitGuard(c)
  {
    hide Root, Neat, LitAlt, TidyCon;
    if CaseOfKnownLit(c, 0).fired {
      NeatCase(c, n, TidyFor(sch));
      var ps := ShapesOf(c.alts);
      forall j | 0 <= j < LitAlt(c.alts, c.scrutinee.value, 0, |c.alts|) ensures !c.alts[j].pat.PWild? {
        assert ps[j] == ShapeOf(c.alts[j].pat);
      }
    }
  }

  /** The dictionaries that the world lacks are not mentioned. */
  ghost predicate Known(w: World, sch: Scheme, dicts: Dicts) {
    forall g :: g in dicts ==> g in w.globals || (g.mod == "" && g.name in sch.banned)
  }

  /** Those that it has lack no argument. */
  ghost predicate DictsSpined(w: World, sigs: Sigs, dicts: Dicts) {
    forall g :: g in dicts && g in w.globals ==> SpinedDict(sigs, dicts[g])
  }

  lemma TidyDict(w: World, dicts: Dicts, c: Core, n: nat, sch: Scheme, due: nat)
    requires Neat(c, n, TidyFor(sch)) && Known(w, sch, dicts) && DictsOk(w, ScopeOf(sch, dicts), TidyFor(sch), n, dicts)
    requires DictsSpined(w, sch.sigs, dicts) && Spined(sch.sigs, c, due)
    ensures DictGuard(w, dicts, c) && (LooksUp(dicts, c) ==> SpinedDict(sch.sigs, Found(dicts, c)))
  {
    hide Root, Neat, TidyShapes, CtorGuard;
    if LooksUp(dicts, c) {
      var g, d, q := VarKey(c.scrutinee.mod, c.scrutinee.name), Found(dicts, c), TidyFor(sch);
      NeatCase(c, n, q);
      NeatAccepted(c.scrutinee, n, q);
      assert g in w.globals;
      SettledNeat(w, ScopeOf(sch, dicts), q, n, g, d);
      NeatCase(Case(Settled(d), c.alts), n, q);
      SettledSpined(sch.sigs, d);
      assert AltsSpined(sch.sigs, c.alts);
      TidyCtor(Case(Settled(d), c.alts), n, sch, 0);
    }
  }

  // ---- And is kept all along ----

  /** What the optimizer relies on, for a scheme. */
  ghost predicate TidySetting(w: World, sch: Scheme, cfg: Config, n: nat) {
    && sch.banned <= sch.kept && Known(w, sch, cfg.dicts)
    && DictsOk(w, ScopeOf(sch, cfg.dicts), TidyFor(sch), n, cfg.dicts) && SoundRules(w, ScopeOf(sch, cfg.dicts), TidyFor(sch), cfg.rules)
    && DictsSpined(w, sch.sigs, cfg.dicts) && SpinedRules(sch.sigs, cfg.rules)
  }

  lemma TidySets(w: World, sch: Scheme, cfg: Config, n: nat)
    requires TidySetting(w, sch, cfg, n)
    ensures Setting(w, ScopeOf(sch, cfg.dicts), TidyFor(sch), cfg, n)
  {
    hide DictsOk, SoundRules, Known, Stable, Clears, DictsSpined, SpinedRules;
    TidyStable(sch, n);
    TidyClears(sch, cfg.dicts);
  }

  lemma TidyLater(w: World, sch: Scheme, cfg: Config, n: nat, m: nat)
    requires TidySetting(w, sch, cfg, n) && n <= m
    ensures TidySetting(w, sch, cfg, m)
  {
    hide DictsOk, SoundRules, Known, Stable, Clears, DictsSpined, SpinedRules;
    TidySets(w, sch, cfg, n);
    SettingLater(w, ScopeOf(sch, cfg.dicts), TidyFor(sch), cfg, n, m);
  }

  lemma TidyNode(w: World, sch: Scheme, cfg: Config, c: Core, n: nat, due: nat)
    requires TidySetting(w, sch, cfg, n) && Neat(c, n, TidyFor(sch)) && Spined(sch.sigs, c, due)
    ensures NodeGuard(w, cfg, c, n) && Spined(sch.sigs, ApplyRules(cfg, c, n).e, due)
  {
    hide Neat, Better, Stable, Clears, DictsOk, SoundRules, Early, KnownCtor, Algebraic, CtorGuard, LitGuard, DictGuard, Known,
      Spined, DictsSpined, SpinedRules, SpinedDict, ApplyRules, LooksUp;
    var D, q := ScopeOf(sch, cfg.dicts), TidyFor(sch);
    TidySets(w, sch, cfg, n);
    EarlyKeeps(w, D, q, c, n);
    EarlySpined(sch.sigs, c, n, due);
    TidyCtor(Early(c, n).e, Early(c, n).n, sch, due);
    KnownCtorKeeps(w, D, q, c, n);
    TidyLit(KnownCtor(c, n).e, KnownCtor(c, n).n, sch);
    AlgebraicKeeps(w, D, q, c, n);
    AlgebraicSpined(sch.sigs, c, n, due);
    TidyLater(w, sch, cfg, n, Algebraic(c, n).n);
    TidyDict(w, cfg.dicts, Algebraic(c, n).e, Algebraic(c, n).n, sch, due);
    ApplySpined(sch.sigs, cfg, c, n, due);
  }

  lemma {:induction false} TidyPass(w: World, sch: Scheme, cfg: Config, e: Core, n: nat, due: nat)
    requires TidySetting(w, sch, cfg, n) && Neat(e, n, TidyFor(sch)) && Spined(sch.sigs, e, due)
    ensures PassGuard(w, cfg, e, n) && Spined(sch.sigs, Pass(cfg, e, n).e, due)
    decreases e, 1
  {
    hide Better, Neat, NodeGuard, PassAll, AllGuarded, Setting, TidySetting, WithKids, Spined, ApplyRules;
    var D, q, es := ScopeOf(sch, cfg.dicts), TidyFor(sch), SubTerms(e);
    TidySets(w, sch, cfg, n);
    NeatSubTerms(e, n, q);
    SpinedNode(sch.sigs, e, due);
    var p;
    if e.App? {
      AppSubTerms(e);
      assert Neat(es[0], n, q) && Neat(es[1], n, q);
      assert Spined(sch.sigs, es[0], due + 1) && Spined(sch.sigs, es[1], 0);
      TidyAll(w, sch, cfg, e, [e.arg, e.fun], [0, due + 1], n);
      PassAllKeeps(w, D, q, cfg, e, [e.arg, e.fun], n);
      p := Flipped(PassAll(cfg, e, [e.arg, e.fun], n));
    } else {
      TidyAll(w, sch, cfg, e, es, seq(|es|, i requires 0 <= i < |es| => Due(e, i, due)), n);
      PassAllKeeps(w, D, q, cfg, e, es, n);
      p := PassAll(cfg, e, es, n);
    }
    WithKidsNeat(e, p.es, n, p.n, q);
    WithKidsSpined(sch.sigs, e, p.es, due);
    TidyLater(w, sch, cfg, n, p.n);
    TidyNode(w, sch, cfg, WithKids(e, p.es), p.n, due);
  }

  lemma {:induction false} TidyAll(w: World, sch: Scheme, cfg: Config, e: Core, es: seq<Core>, dues: seq<nat>, n: nat)
    requires forall i :: 0 <= i < |es| ==> es[i] < e
    requires TidySetting(w, sch, cfg, n) && NeatAll(es, n, TidyFor(sch))
    requires |dues| == |es| && forall i :: 0 <= i < |es| ==> Spined(sch.sigs, es[i], dues[i])
    ensures AllGuarded(w, cfg, e, es, n)
    ensures var p := PassAll(cfg, e, es, n); forall i :: 0 <= i < |es| ==> Spined(sch.sigs, p.es[i], dues[i])
    decreases e, 0, |es|
  {
    hide Better, Neat, Pass, PassGuard, Setting, TidySetting, Spined;
    if es != [] {
      var D, q := ScopeOf(sch, cfg.dicts), TidyFor(sch);
      TidySets(w, sch, cfg, n);
      TidyPass(w, sch, cfg, es[0], n, dues[0]);
      PassKeeps(w, D, q, cfg, es[0], n);
      var o := Pass(cfg, es[0], n);
      TidyLater(w, sch, cfg, n, o.n);
      forall i | 0 <= i < |es[1..]| ensures Neat(es[1..][i], o.n, q) { NeatLater(es[i + 1], n, o.n, q); }
      TidyAll(w, sch, cfg, e, es[1..], dues[1..], o.n);
    }
  }

  lemma {:induction false} TidyPasses(w: World, sch: Scheme, cfg: Config, e: Core, n: nat, k: nat)
    requires TidySetting(w, sch, cfg, n) && Neat(e, n, TidyFor(sch)) && Spined(sch.sigs, e, 0)
    ensures PassesGuard(w, cfg, e, n, k)
    decreases k
  {
    hide Better, Neat, Pass, PassGuard, Setting, TidySetting, Spined;
    if k > 0 {
      TidySets(w, sch, cfg, n);
      TidyPass(w, sch, cfg, e, n, 0);
      PassKeeps(w, ScopeOf(sch, cfg.dicts), TidyFor(sch), cfg, e, n);
      var o := Pass(cfg, e, n);
      TidyLater(w, sch, cfg, n, o.n);
      if o.fired { TidyPasses(w, sch, cfg, o.e, o.n, k - 1); }
    }
  }

  /** On tidy input the optimizer needs no other condition. */
  lemma OptimizeTidy(w: World, sch: Scheme, cfg: Config, e: Core, n: nat, v: Term)
    requires WorldOk(w) && TidySetting(w, sch, cfg, n) && Neat(e, n, TidyFor(sch)) && Spined(sch.sigs, e, 0) && Computes(w, e, v)
    ensures Computes(w, Optimize(cfg, e, n).0, v)
  {
    hide Neat, Setting, TidySetting, PassesGuard, Computes, Spined;
    TidySets(w, sch, cfg, n);
    TidyPasses(w, sch, cfg, e, n, MaxPasses);
    OptimizeRight(w, ScopeOf(sch, cfg.dicts), TidyFor(sch), cfg, e, n, v);
  }

  // ---- Spine form is covered ----

  /** A name that was not drawn. */
  lemma Undrawn(x: Name, n: nat)
    requires '$' !in x
    ensures Older(x, n) && Root(x) == x
  {
    hide Decimal;
    forall b, m ensures x != FreshName(b, m) {
      var f := FreshName(b, m);
      assert f[|b|] == '$';
    }
  }

  /** \l. case l of { Nil -> Nil; Cons y ys -> Cons y ys }, as the checker builds it. */
  function Rebuild(): Core {
    Lam("l", NoTy, Case(Var("l", ""), [
      Alt(PCon("Nil", "", []), Con("Nil", "", [])),
      Alt(PCon("Cons", "", [PVar("y"), PVar("ys")]), App(App(Con("Cons", "", []), Var("y", "")), Var("ys", "")))]))
  }

  function ListScheme(): Scheme { Scheme(map["Nil" := Sig("", 0), "Cons" := Sig("", 2)], {"y", "ys"}, {}, {}, true) }

  lemma LocalNeat(x: Name, n: nat)
    requires '$' !in x
    ensures Neat(Var(x, ""), n, TidyFor(ListScheme()))
  {
    hide Root;
    Undrawn(x, n);
  }

  lemma SpineNeat(n: nat)
    ensures Neat(Con("Nil", "", []), n, TidyFor(ListScheme()))
    ensures Neat(App(App(Con("Cons", "", []), Var("y", "")), Var("ys", "")), n, TidyFor(ListScheme()))
  {
    hide Neat, Root, Older;
    var q := TidyFor(ListScheme());
    var nil, cons := Con("Nil", "", []), Con("Cons", "", []);
    var one := App(cons, Var("y", ""));
    var two := App(one, Var("ys", ""));
    LocalNeat("y", n);
    LocalNeat("ys", n);
    assert Kids(nil) == [] && Kids(cons) == [];
    NeatPlain(nil, n, q);
    NeatPlain(cons, n, q);
    assert Kids(one) == [cons, Var("y", "")] && Kids(two) == [one, Var("ys", "")];
    NeatPlain(one, n, q);
    NeatPlain(two, n, q);
  }

  lemma RebuildPatterns(n: nat)
    ensures var alts := Rebuild().body.alts;
      && NeatPattern(alts[0].pat, n) && NeatPattern(alts[1].pat, n)
      && Bindings(alts[0].pat) == [] && Bindings(alts[1].pat) == ["y", "ys"]
  {
    hide Older;
    var alts := Rebuild().body.alts;
    var p := alts[1].pat;
    var ss := seq(2, i requires 0 <= i < 2 => Bindings(p.args[i]));
    assert ss == [["y"], ["ys"]] && ss[1..] == [["ys"]] && ss[1..][1..] == [];
    assert Flat(ss) == ["y"] + Flat(ss[1..]) && Flat(ss[1..]) == ["ys"] + Flat([]);
    assert Bindings(p) == Flat(ss) == ["y", "ys"];
    assert |"y"| != |"ys"|;
    Undrawn("y", n);
    Undrawn("ys", n);
  }

  lemma RebuildView(n: nat)
    ensures var alts := Rebuild().body.alts; TidyView(ListScheme(), CaseView(ShapesOf(alts), NamesOf(alts)))
    ensures TidyView(ListScheme(), FunView("l"))
  {
    hide Root, Older, Bindings;
    var sch, alts := ListScheme(), Rebuild().body.alts;
    RebuildPatterns(n);
    Undrawn("y", n);
    Undrawn("ys", n);
    Undrawn("l", n);
    assert "l"[0] != "y"[0] && "ys"[0] == 'y';
    assert "Nil"[0] != "Cons"[0];
    var ps := ShapesOf(alts);
    assert ps[0] == SCon("Nil", "", []) && ps[1] == SCon("Cons", "", [SVar, SVar]);
    assert NamesOf(alts) == [[], ["y", "ys"]];
  }

  /** A function that matches and builds one constructor, at the head of a spine. */
  lemma RebuildTidy(n: nat)
    ensures Neat(Rebuild(), n, TidyFor(ListScheme())) && Spined(ListScheme().sigs, Rebuild(), 0)
  {
    hide Neat, Root, Older, Bindings, PayloadVars, TidyView;
    var e, q := Rebuild(), TidyFor(ListScheme());
    RebuildPatterns(n);
    RebuildView(n);
    SpineNeat(n);
    LocalNeat("l", n);
    Undrawn("l", n);
    NeatCase(e.body, n, q);
    NeatLam(e, n, q);
    RebuildSpined();
  }

  lemma RebuildSpined()
    ensures Spined(ListScheme().sigs, Rebuild(), 0)
  {
    var sigs, alts := ListScheme().sigs, Rebuild().body.alts;
    assert "Nil"[0] != "Cons"[0];
    var cons := Con("Cons", "", []);
    assert Spined(sigs, cons, 2);
    assert Spined(sigs, App(cons, Var("y", "")), 1);
    assert Spined(sigs, alts[1].body, 0) && Spined(sigs, alts[0].body, 0);
    assert AltsSpined(sigs, alts);
    assert Spined(sigs, Rebuild().body, 0);
  }
}
