/**
  The optimizer keeps what programs compute: every first-order value the
  original evaluates to, the optimized program evaluates to.
 */
module OptimizerRight {
  import opened CoreIR
  import opened Nameless
  import opened Translate
  import opened FreshNames
  import opened Hygiene
  import opened SubstCorrect
  import opened Records
  import opened Eval
  import opened EvalFacts
  import opened Chains
  import opened EraseFacts
  import opened NeatTerms
  import opened Rewrites
  import opened RewriteRight
  import opened TypeRules
  import opened KnownRules
  import opened CommuteRules
  import opened DictRules
  import opened Optimizer

  /** What a rewrite, a pass or the whole optimizer has to achieve: the result is
      neat for `q` again, and refines the original wherever the names `D` are
      left to the globals. */
  ghost predicate Keeps(w: World, D: Scope, q: View -> bool, c: Core, n: nat, e: Core, m: nat) {
    n <= m && Neat(e, m, q) && Better(w, D, c, e)
  }

  /** A registered rule that keeps the meaning of every neat node. */
  ghost predicate SoundRule(w: World, D: Scope, q: View -> bool, rule: Rule) {
    forall c, n :: Neat(c, n, q) && Stable(q, n) ==> Keeps(w, D, q, c, n, rule(c, n).e, rule(c, n).n)
  }

  ghost predicate SoundRules(w: World, D: Scope, q: View -> bool, rules: seq<Rule>) {
    forall i :: 0 <= i < |rules| ==> SoundRule(w, D, q, rules[i])
  }

  /** No accepted node binds a name in `D`. */
  ghost predicate Clears(q: View -> bool, D: Scope) {
    && (forall x :: q(FunView(x)) ==> x !in D.names)
    && (forall x :: q(BindView(x)) ==> x !in D.names)
    && (forall ps, xss, i, x :: q(CaseView(ps, xss)) && 0 <= i < |xss| && x in xss[i] ==> x !in D.names)
  }

  /** Everything the optimizer relies on besides the term itself. */
  ghost predicate Setting(w: World, D: Scope, q: View -> bool, cfg: Config, n: nat) {
    Stable(q, n) && Clears(q, D) && DictsOk(w, D, q, n, cfg.dicts) && SoundRules(w, D, q, cfg.rules)
  }

  lemma SettingLater(w: World, D: Scope, q: View -> bool, cfg: Config, n: nat, m: nat)
    requires Setting(w, D, q, cfg, n) && n <= m
    ensures Setting(w, D, q, cfg, m)
  {
    hide Stable, Clears, SoundRules, Neat, Ev;
    StableLater(q, n, m);
    forall g | g in cfg.dicts && g in w.globals ensures DictOk(w, D, q, m, g, cfg.dicts[g]) {
      assert DictOk(w, D, q, n, g, cfg.dicts[g]);
      NeatLater(Settled(cfg.dicts[g]), n, m, q);
    }
  }

  lemma KeepsTrans(w: World, D: Scope, q: View -> bool, a: Core, n: nat, b: Core, m: nat, c: Core, k: nat)
    requires Keeps(w, D, q, a, n, b, m) && Keeps(w, D, q, b, m, c, k)
    ensures Keeps(w, D, q, a, n, c, k)
  {
    hide Better, Neat;
    BetterTrans(w, D, a, b, c);
  }

  lemma KeepsKept(w: World, D: Scope, q: View -> bool, c: Core, n: nat)
    requires Neat(c, n, q)
    ensures Keeps(w, D, q, c, n, c, n)
  {
    hide Better, Neat;
    BetterRefl(w, D, c);
  }

  lemma ThenKeeps(w: World, D: Scope, q: View -> bool, c: Core, n: nat, o: Out, rule: (Core, nat) -> Out)
    requires Keeps(w, D, q, c, n, o.e, o.n) && Right1(o.e, o.n, q, rule(o.e, o.n))
    ensures Keeps(w, D, q, c, n, Then(o, rule).e, Then(o, rule).n)
  {
    hide Better, Neat, Er;
    Right1Better(w, D, o.e, o.n, q, rule(o.e, o.n));
    KeepsTrans(w, D, q, c, n, o.e, o.n, rule(o.e, o.n).e, rule(o.e, o.n).n);
  }

  // ---- One node ----

  /** The rewrites on known scrutinees are used within their guards. */
  ghost predicate NodeGuard(w: World, cfg: Config, c: Core, n: nat) {
    CtorGuard(Early(c, n).e) && LitGuard(KnownCtor(c, n).e) && DictGuard(w, cfg.dicts, Algebraic(c, n).e)
  }

  lemma EarlyKeeps(w: World, D: Scope, q: View -> bool, c: Core, n: nat)
    requires Neat(c, n, q) && Stable(q, n)
    ensures Keeps(w, D, q, c, n, Early(c, n).e, Early(c, n).n)
  {
    hide Better, Neat, Stable, Right1, BetaReduce, TyAppBeta, AppTyLamFloat;
    var o0 := Kept(c, n);
    KeepsKept(w, D, q, c, n);
    BetaReduceRight(o0.e, o0.n, q);
    ThenKeeps(w, D, q, c, n, o0, BetaReduce);
    var o1 := Then(o0, BetaReduce);
    StableLater(q, n, o1.n);
    TyAppBetaRight(o1.e, o1.n, q);
    ThenKeeps(w, D, q, c, n, o1, TyAppBeta);
    var o2 := Then(o1, TyAppBeta);
    StableLater(q, n, o2.n);
    AppTyLamFloatRight(o2.e, o2.n, q);
    ThenKeeps(w, D, q, c, n, o2, AppTyLamFloat);
  }

  lemma KnownCtorKeeps(w: World, D: Scope, q: View -> bool, c: Core, n: nat)
    requires Neat(c, n, q) && Stable(q, n) && CtorGuard(Early(c, n).e)
    ensures Keeps(w, D, q, c, n, KnownCtor(c, n).e, KnownCtor(c, n).n)
  {
    hide Better, Neat, Stable, Right1, Early, CaseOfKnownCtor, CtorGuard;
    EarlyKeeps(w, D, q, c, n);
    var o1 := Early(c, n);
    StableLater(q, n, o1.n);
    CaseOfKnownCtorRight(o1.e, o1.n, q);
    ThenKeeps(w, D, q, c, n, o1, CaseOfKnownCtor);
  }

  lemma KnownLitKeeps(w: World, D: Scope, q: View -> bool, c: Core, n: nat)
    requires Neat(c, n, q) && Stable(q, n) && CtorGuard(Early(c, n).e) && LitGuard(KnownCtor(c, n).e)
    ensures Keeps(w, D, q, c, n, KnownLit(c, n).e, KnownLit(c, n).n)
  {
    hide Better, Neat, Stable, Right1, Early, KnownCtor, CaseOfKnownLit, CtorGuard, LitGuard;
    KnownCtorKeeps(w, D, q, c, n);
    var o2 := KnownCtor(c, n);
    StableLater(q, n, o2.n);
    CaseOfKnownLitRight(o2.e, o2.n, q);
    ThenKeeps(w, D, q, c, n, o2, CaseOfKnownLit);
  }

  lemma AlgebraicKeeps(w: World, D: Scope, q: View -> bool, c: Core, n: nat)
    requires Neat(c, n, q) && Stable(q, n) && CtorGuard(Early(c, n).e) && LitGuard(KnownCtor(c, n).e)
    ensures Keeps(w, D, q, c, n, Algebraic(c, n).e, Algebraic(c, n).n)
  {
    hide Better, Neat, Stable, Right1, KnownLit, BindPureElim, ForceThunkElim, RecordProjKnown, RecordUpdateChain;
    hide PrimOpAbsorb, CaseOfCase, BindOfCase, CtorGuard, LitGuard, Early, KnownCtor;
    KnownLitKeeps(w, D, q, c, n);
    var o0 := KnownLit(c, n);
    StableLater(q, n, o0.n);
    BindPureElimRight(o0.e, o0.n, q);
    ThenKeeps(w, D, q, c, n, o0, BindPureElim);
    var o1 := Then(o0, BindPureElim);
    StableLater(q, n, o1.n);
    ForceThunkElimRight(o1.e, o1.n, q);
    ThenKeeps(w, D, q, c, n, o1, ForceThunkElim);
    var o2 := Then(o1, ForceThunkElim);
    StableLater(q, n, o2.n);
    RecordProjKnownRight(o2.e, o2.n, q);
    ThenKeeps(w, D, q, c, n, o2, RecordProjKnown);
    var o3 := Then(o2, RecordProjKnown);
    StableLater(q, n, o3.n);
    RecordUpdateChainRight(o3.e, o3.n, q);
    ThenKeeps(w, D, q, c, n, o3, RecordUpdateChain);
    var o4 := Then(o3, RecordUpdateChain);
    StableLater(q, n, o4.n);
    PrimOpAbsorbRight(o4.e, o4.n, q);
    ThenKeeps(w, D, q, c, n, o4, PrimOpAbsorb);
    var o5 := Then(o4, PrimOpAbsorb);
    StableLater(q, n, o5.n);
    CaseOfCaseRight(o5.e, o5.n, q);
    ThenKeeps(w, D, q, c, n, o5, CaseOfCase);
    var o6 := Then(o5, CaseOfCase);
    StableLater(q, n, o6.n);
    BindOfCaseRight(o6.e, o6.n, q);
    ThenKeeps(w, D, q, c, n, o6, BindOfCase);
  }

  lemma {:induction false} RegisteredKeeps(w: World, D: Scope, q: View -> bool, rules: seq<Rule>, c: Core, n: nat, o: Out)
    requires SoundRules(w, D, q, rules) && Keeps(w, D, q, c, n, o.e, o.n) && Stable(q, n)
    ensures Keeps(w, D, q, c, n, Registered(rules, o).e, Registered(rules, o).n)
    decreases |rules|
  {
    hide Better, Neat, Stable;
    if rules != [] {
      assert SoundRule(w, D, q, rules[0]);
      StableLater(q, n, o.n);
      var p := rules[0](o.e, o.n);
      assert Keeps(w, D, q, o.e, o.n, p.e, p.n);
      KeepsTrans(w, D, q, c, n, o.e, o.n, p.e, p.n);
      RegisteredKeeps(w, D, q, rules[1..], c, n, Then(o, rules[0]));
    }
  }

  lemma NodeKeeps(w: World, D: Scope, q: View -> bool, cfg: Config, c: Core, n: nat)
    requires Setting(w, D, q, cfg, n) && Neat(c, n, q) && NodeGuard(w, cfg, c, n)
    ensures var o := ApplyRules(cfg, c, n); Keeps(w, D, q, c, n, o.e, o.n)
  {
    hide Better, Neat, Stable, Clears, SoundRules, DictsOk, Algebraic, CtorGuard, LitGuard, DictGuard, CaseOfKnownDict, Early, KnownCtor;
    AlgebraicKeeps(w, D, q, c, n);
    var o := Algebraic(c, n);
    SettingLater(w, D, q, cfg, n, o.n);
    CaseOfKnownDictRight(w, D, q, cfg.dicts, o.e, o.n);
    var p := CaseOfKnownDict(cfg.dicts, o.e, o.n);
    KeepsTrans(w, D, q, c, n, o.e, o.n, p.e, p.n);
    RegisteredKeeps(w, D, q, cfg.rules, c, n, KnownDict(cfg, c, n));
  }

  // ---- Congruence under all formers ----

  /** `r` is `e` with its subterms replaced by `bs`. */
  ghost predicate Replaced(e: Core, bs: seq<Core>, r: Core)
    requires !e.Var?
  {
    var ss, rs := Scopes(e), Scopes(r);
    && !r.Var? && OpOf(r) == OpOf(e) && (r.TyApp? <==> e.TyApp?) && (r.TyLam? <==> e.TyLam?)
    && |rs| == |ss| == |bs| && forall i :: 0 <= i < |ss| ==> rs[i].names == ss[i].names && rs[i].body == bs[i]
  }

  lemma WithKidsCase(e: Core, bs: seq<Core>)
    requires e.Case? && |bs| == |Scopes(e)|
    ensures Replaced(e, bs, WithKids(e, bs))
  {
    var r := WithKids(e, bs);
    CaseScopes(e);
    CaseScopes(r);
    assert OpOf(r).pats == OpOf(e).pats;
  }

  lemma WithKidsFields(e: Core, bs: seq<Core>)
    requires (e.RecordLit? || e.RecordUpdate?) && |bs| == |Scopes(e)|
    ensures Replaced(e, bs, WithKids(e, bs))
  {
    hide Scopes;
    if e.RecordLit? {
      var r := WithKidsRecord(e, bs);
      RecordScopes(e);
      RecordScopes(r);
    } else {
      var r := WithKidsUpdate(e, bs);
      UpdateScopes(e);
      UpdateScopes(r);
    }
  }

  lemma WithKidsRecord(e: Core, bs: seq<Core>) returns (r: Core)
    requires e.RecordLit? && |bs| == |Scopes(e)|
    ensures r == WithKids(e, bs) && r.RecordLit? && OpOf(r) == OpOf(e) && |r.fields| == |e.fields| == |bs|
    ensures forall i :: 0 <= i < |bs| ==> r.fields[i].value == bs[i]
  {
    r := WithKids(e, bs);
    assert Labels(r.fields) == Labels(e.fields);
  }

  lemma WithKidsUpdate(e: Core, bs: seq<Core>) returns (r: Core)
    requires e.RecordUpdate? && |bs| == |Scopes(e)|
    ensures r == WithKids(e, bs) && r.RecordUpdate? && OpOf(r) == OpOf(e) && |r.updates| + 1 == |e.updates| + 1 == |bs|
    ensures r.record == bs[0] && forall i :: 0 <= i < |r.updates| ==> r.updates[i].value == bs[i + 1]
  {
    r := WithKids(e, bs);
    assert Labels(r.updates) == Labels(e.updates);
  }

  lemma WithKidsScopes(e: Core, bs: seq<Core>)
    requires !e.Var? && |bs| == |Scopes(e)|
    ensures Replaced(e, bs, WithKids(e, bs))
  {
    if e.Case? {
      WithKidsCase(e, bs);
    } else if e.RecordLit? || e.RecordUpdate? {
      WithKidsFields(e, bs);
    }
  }

  ghost predicate BetterAll(w: World, D: Scope, es: seq<Core>, bs: seq<Core>) {
    |es| == |bs| && forall i :: 0 <= i < |es| ==> Better(w, D, es[i], bs[i])
  }

  /** No subterm of `e` is under a name in `D`. */
  ghost predicate ClearNode(e: Core, D: Scope) {
    forall i, x :: 0 <= i < |Scopes(e)| && x in Scopes(e)[i].names ==> x !in D.names
  }

  lemma AcceptedClear(e: Core, q: View -> bool, D: Scope)
    requires q(ViewOf(e)) && Clears(q, D)
    ensures ClearNode(e, D)
  {
    if e.Case? {
      CaseScopes(e);
      forall i, x | 0 <= i < |Scopes(e)| && x in Scopes(e)[i].names ensures x !in D.names {
        if i > 0 { assert x in NamesOf(e.alts)[i - 1]; }
      }
    } else if e.Lam? || e.Fix? || e.Bind? {
    } else if !e.Var? {
      PlainNames(e);
    }
  }

  lemma LeavesUnder(env: Env, xs: seq<Name>, D: Scope)
    requires Leaves(env, D) && forall x :: x in xs ==> x !in D.names
    ensures Leaves(Extend(env, xs), D)
  {
  }

  lemma WithKidsBetter(w: World, D: Scope, e: Core, bs: seq<Core>)
    requires BetterAll(w, D, SubTerms(e), bs) && ClearNode(e, D)
    ensures Better(w, D, e, WithKids(e, bs))
  {
    hide Er, Refines, Scopes, WithKids, Extend, OpOf, Narrows;
    if e.Var? {
      VarKept(e, bs);
      BetterRefl(w, D, e);
    } else {
      var r := WithKids(e, bs);
      WithKidsScopes(e, bs);
      var ss, rs, es := Scopes(e), Scopes(r), SubTerms(e);
      forall env | Leaves(env, D) ensures Refines(w, Er(e, env), Er(r, env)) && Narrows(D, Er(e, env), Er(r, env)) {
        forall i | 0 <= i < |ss|
          ensures Refines(w, ErKid(ss[i], env).body, ErKid(rs[i], env).body)
          ensures Narrows(D, ErKid(ss[i], env).body, ErKid(rs[i], env).body)
        {
          assert Better(w, D, es[i], bs[i]);
          LeavesUnder(env, ss[i].names, D);
        }
        if e.TyApp? || e.TyLam? {
          TypesKid(e, env);
          TypesKid(r, env);
        } else {
          ErNode(e, env);
          ErNode(r, env);
          RefinesNode(w, EraseOp(OpOf(e)), ErKids(e, env), ErKids(r, env));
          NarrowsNode(D, EraseOp(OpOf(e)), ErKids(e, env), ErKids(r, env));
        }
      }
    }
  }

  lemma VarKept(e: Core, bs: seq<Core>)
    requires e.Var? && |bs| == |Scopes(e)|
    ensures WithKids(e, bs) == e
  {
  }

  lemma TypesKid(e: Core, env: Env)
    requires e.TyApp? || e.TyLam?
    ensures |Scopes(e)| == 1 && Er(e, env) == ErKid(Scopes(e)[0], env).body
  {
    ErTypes(e, env);
    ExtendNil(env);
  }

  lemma WithKidsView(e: Core, bs: seq<Core>)
    requires |bs| == |Scopes(e)|
    ensures ViewOf(WithKids(e, bs)) == ViewOf(e)
  {
    var r := WithKids(e, bs);
    if e.Case? {
      CasePatsKept(e, bs);
      assert ShapesOf(r.alts) == ShapesOf(e.alts) && NamesOf(r.alts) == NamesOf(e.alts);
    }
  }

  lemma WithKidsNeat(e: Core, bs: seq<Core>, n: nat, m: nat, q: View -> bool)
    requires Neat(e, n, q) && n <= m && |bs| == |Scopes(e)| && NeatAll(bs, m, q)
    ensures Neat(WithKids(e, bs), m, q)
  {
    forall ps: set<Name> ensures Hygienic(WithKids(e, bs), m, Avoid(ps, q)) { WithKidsHygienic(e, bs, n, m, q, ps); }
  }

  lemma WithKidsHygienic(e: Core, bs: seq<Core>, n: nat, m: nat, q: View -> bool, ps: set<Name>)
    requires Neat(e, n, q) && n <= m && |bs| == |Scopes(e)| && NeatAll(bs, m, q)
    ensures Hygienic(WithKids(e, bs), m, Avoid(ps, q))
  {
    hide Scopes, WithKids, Older, Bindings, ViewOf;
    var avoid := Avoid(ps, q);
    assert Hygienic(e, n, avoid);
    HygienicLater(e, n, m, avoid, avoid);
    if e.Var? {
      VarKept(e, bs);
    } else {
      var r := WithKids(e, bs);
      WithKidsScopes(e, bs);
      WithKidsView(e, bs);
      forall i | 0 <= i < |bs| ensures Hygienic(bs[i], m, avoid) { assert Neat(bs[i], m, q); }
      if e.Case? { CasePatsKept(e, bs); }
    }
  }

  lemma CasePatsKept(e: Core, bs: seq<Core>)
    requires e.Case? && |bs| == |Scopes(e)|
    ensures var r := WithKids(e, bs);
      r.Case? && |r.alts| == |e.alts| && forall i :: 0 <= i < |e.alts| ==> r.alts[i].pat == e.alts[i].pat
  {
  }

  lemma NeatSubTerms(e: Core, n: nat, q: View -> bool)
    requires Neat(e, n, q)
    ensures NeatAll(SubTerms(e), n, q)
  {
    var es := SubTerms(e);
    forall i, ps: set<Name> | 0 <= i < |es| ensures Hygienic(es[i], n, Avoid(ps, q)) { assert Hygienic(e, n, Avoid(ps, q)); }
  }

  // ---- Passes ----

  /** Every node is handled within the guards, all the way up. */
  ghost predicate PassGuard(w: World, cfg: Config, e: Core, n: nat)
    decreases e, 1
  {
    var p := if e.App? then Flipped(PassAll(cfg, e, [e.arg, e.fun], n)) else PassAll(cfg, e, SubTerms(e), n);
    && AllGuarded(w, cfg, e, if e.App? then [e.arg, e.fun] else SubTerms(e), n)
    && NodeGuard(w, cfg, WithKids(e, p.es), p.n)
  }

  ghost predicate AllGuarded(w: World, cfg: Config, e: Core, es: seq<Core>, n: nat)
    requires forall i :: 0 <= i < |es| ==> es[i] < e
    decreases e, 0, |es|
  {
    es == [] || (PassGuard(w, cfg, es[0], n) && AllGuarded(w, cfg, e, es[1..], Pass(cfg, es[0], n).n))
  }

  lemma {:induction false} PassKeeps(w: World, D: Scope, q: View -> bool, cfg: Config, e: Core, n: nat)
    requires Setting(w, D, q, cfg, n) && Neat(e, n, q) && PassGuard(w, cfg, e, n)
    ensures var o := Pass(cfg, e, n); Keeps(w, D, q, e, n, o.e, o.n)
    decreases e, 1
  {
    hide Better, Neat, ApplyRules, NodeGuard, PassAll, AllGuarded, Stable, Clears, DictsOk, SoundRules, WithKids, ClearNode;
    var es := SubTerms(e);
    NeatSubTerms(e, n, q);
    var p;
    if e.App? {
      var back := PassAll(cfg, e, [e.arg, e.fun], n);
      AppSubTerms(e);
      assert Neat(es[0], n, q) && Neat(es[1], n, q);
      PassAllKeeps(w, D, q, cfg, e, [e.arg, e.fun], n);
      p := Flipped(back);
      assert BetterAll(w, D, es, p.es) && NeatAll(p.es, p.n, q);
    } else {
      p := PassAll(cfg, e, es, n);
      PassAllKeeps(w, D, q, cfg, e, es, n);
    }
    var c := WithKids(e, p.es);
    AcceptedClear(e, q, D) by { NeatAccepted(e, n, q); }
    WithKidsBetter(w, D, e, p.es);
    WithKidsNeat(e, p.es, n, p.n, q);
    SettingLater(w, D, q, cfg, n, p.n);
    NodeKeeps(w, D, q, cfg, c, p.n);
    var o := ApplyRules(cfg, c, p.n);
    KeepsTrans(w, D, q, e, n, c, p.n, o.e, o.n);
  }

  lemma AppSubTerms(e: Core)
    requires e.App?
    ensures SubTerms(e) == [e.fun, e.arg]
  {
  }

  lemma {:induction false} PassAllKeeps(w: World, D: Scope, q: View -> bool, cfg: Config, e: Core, es: seq<Core>, n: nat)
    requires forall i :: 0 <= i < |es| ==> es[i] < e
    requires Setting(w, D, q, cfg, n) && NeatAll(es, n, q) && AllGuarded(w, cfg, e, es, n)
    ensures var p := PassAll(cfg, e, es, n); n <= p.n && NeatAll(p.es, p.n, q) && BetterAll(w, D, es, p.es)
    decreases e, 0, |es|
  {
    hide Better, Neat, Pass, PassGuard, Setting;
    if es != [] {
      var o := Pass(cfg, es[0], n);
      PassKeeps(w, D, q, cfg, es[0], n);
      forall i | 0 <= i < |es[1..]| ensures Neat(es[1..][i], o.n, q) { NeatLater(es[i + 1], n, o.n, q); }
      SettingLater(w, D, q, cfg, n, o.n);
      PassAllKeeps(w, D, q, cfg, e, es[1..], o.n);
      var p := PassAll(cfg, e, es[1..], o.n);
      NeatLater(o.e, o.n, p.n, q);
    }
  }

  ghost predicate PassesGuard(w: World, cfg: Config, e: Core, n: nat, k: nat)
    decreases k
  {
    k > 0 ==> PassGuard(w, cfg, e, n) && var o := Pass(cfg, e, n); o.fired ==> PassesGuard(w, cfg, o.e, o.n, k - 1)
  }

  lemma {:induction false} PassesKeep(w: World, D: Scope, q: View -> bool, cfg: Config, e: Core, n: nat, k: nat)
    requires Setting(w, D, q, cfg, n) && Neat(e, n, q) && PassesGuard(w, cfg, e, n, k)
    ensures var r := Passes(cfg, e, n, k); Keeps(w, D, q, e, n, r.0, r.1)
    decreases k
  {
    hide Better, Neat, Pass, PassGuard, Setting;
    if k == 0 {
      KeepsKept(w, D, q, e, n);
    } else {
      PassKeeps(w, D, q, cfg, e, n);
      var o := Pass(cfg, e, n);
      if o.fired {
        SettingLater(w, D, q, cfg, n, o.n);
        PassesKeep(w, D, q, cfg, o.e, o.n, k - 1);
        var r := Passes(cfg, o.e, o.n, k - 1);
        KeepsTrans(w, D, q, e, n, o.e, o.n, r.0, r.1);
      }
    }
  }

  // ---- The theorem ----

  /** A program evaluates to the first-order value `v`. */
  ghost predicate Computes(w: World, e: Core, v: Term) {
    Ground(v) && exists n: nat :: Ev(w, n, Meaning(e)) == Just(v)
  }

  /** Optimizing keeps every first-order value an expression computes. */
  lemma OptimizeRight(w: World, D: Scope, q: View -> bool, cfg: Config, e: Core, n: nat, v: Term)
    requires WorldOk(w) && Setting(w, D, q, cfg, n) && Neat(e, n, q) && PassesGuard(w, cfg, e, n, MaxPasses)
    requires Computes(w, e, v)
    ensures Computes(w, Optimize(cfg, e, n).0, v)
  {
    hide Ev, Closed, Er, Refines, Pass, PassGuard, Setting, Neat, PassesGuard;
    var e' := Optimize(cfg, e, n).0;
    PassesKeep(w, D, q, cfg, e, n, MaxPasses);
    BetterMeaning(w, D, e, e');
    MeaningClosed(e);
    var k: nat :| Ev(w, k, Meaning(e)) == Just(v);
    RefinesValue(w, k, Meaning(e), Meaning(e'));
  }

  lemma BetterMeaning(w: World, D: Scope, e: Core, e': Core)
    requires Better(w, D, e, e')
    ensures Refines(w, Meaning(e), Meaning(e')) && Narrows(D, Meaning(e), Meaning(e'))
  {
    hide Refines, Er, Narrows;
    assert Leaves(map[], D);
  }
}
