/**
  Neat terms: hygienic whatever names label payloads have to avoid, that is,
  with names older than the counter, linear patterns and no label payload
  variables; and every node accepted by a predicate that rewrites preserve.
 */
module NeatTerms {
  import opened CoreIR
  import opened Nameless
  import opened Translate
  import opened FreshNames
  import opened Subst
  import opened Hygiene
  import opened SubstCorrect
  import opened Eval
  import opened Chains
  import opened EraseFacts
  import opened Mentions

  ghost predicate Neat(e: Core, n: nat, q: View -> bool) { forall ps: set<Name> :: Hygienic(e, n, Avoid(ps, q)) }

  ghost predicate NeatAll(es: seq<Core>, n: nat, q: View -> bool) { forall i :: 0 <= i < |es| ==> Neat(es[i], n, q) }

  ghost predicate NeatPattern(p: Pattern, n: nat) {
    Distinct(Bindings(p)) && PayloadVars(p) == {} && AllOlder(Bindings(p), n)
  }

  ghost predicate NeatAlt(alt: Alt, n: nat, q: View -> bool) { NeatPattern(alt.pat, n) && Neat(alt.body, n, q) }

  ghost predicate NeatAlts(alts: seq<Alt>, n: nat, q: View -> bool) {
    forall i :: 0 <= i < |alts| ==> NeatAlt(alts[i], n, q)
  }

  lemma NeatAccepted(e: Core, n: nat, q: View -> bool)
    requires Neat(e, n, q)
    ensures q(ViewOf(e))
  {
    assert Hygienic(e, n, Avoid({}, q));
  }

  lemma NeatLater(e: Core, n: nat, m: nat, q: View -> bool)
    requires Neat(e, n, q) && n <= m
    ensures Neat(e, m, q)
  {
    forall ps: set<Name> ensures Hygienic(e, m, Avoid(ps, q)) { HygienicLater(e, n, m, Avoid(ps, q), Avoid(ps, q)); }
  }

  lemma NeatPlain(e: Core, n: nat, q: View -> bool)
    requires !e.Var? && !Binds(e)
    ensures Neat(e, n, q) <==> q(ViewOf(e)) && NeatAll(Kids(e), n, q)
  {
    hide Hygienic;
    PlainOk(e, n, Avoid({}, q));
    if Neat(e, n, q) {
      assert Hygienic(e, n, Avoid({}, q));
      forall i, ps: set<Name> | 0 <= i < |Kids(e)| ensures Hygienic(Kids(e)[i], n, Avoid(ps, q)) {
        assert Hygienic(e, n, Avoid(ps, q));
        PlainOk(e, n, Avoid(ps, q));
      }
    }
    if q(ViewOf(e)) && NeatAll(Kids(e), n, q) {
      forall ps: set<Name> ensures Hygienic(e, n, Avoid(ps, q)) {
        forall i | 0 <= i < |Kids(e)| ensures Hygienic(Kids(e)[i], n, Avoid(ps, q)) { assert Neat(Kids(e)[i], n, q); }
        PlainOk(e, n, Avoid(ps, q));
      }
    }
  }

  lemma NeatLam(e: Core, n: nat, q: View -> bool)
    requires e.Lam?
    ensures Neat(e, n, q) <==> q(FunView(e.param)) && Older(e.param, n) && Neat(e.body, n, q)
  {
    hide Hygienic, Older;
    forall ps: set<Name> ensures Hygienic(e, n, Avoid(ps, q))
      <==> q(FunView(e.param)) && Older(e.param, n) && Hygienic(e.body, n, Avoid(ps, q))
    {
      LamOk(e.param, e.paramType, e.body, n, Avoid(ps, q));
    }
    assert Hygienic(e, n, Avoid({}, q)) <==> q(FunView(e.param)) && Older(e.param, n) && Hygienic(e.body, n, Avoid({}, q));
  }

  lemma NeatBind(e: Core, n: nat, q: View -> bool)
    requires e.Bind?
    ensures Neat(e, n, q) <==> q(BindView(e.bvar)) && Neat(e.comp, n, q) && Older(e.bvar, n) && Neat(e.body, n, q)
  {
    hide Hygienic, Older;
    forall ps: set<Name> ensures Hygienic(e, n, Avoid(ps, q))
      <==> q(BindView(e.bvar)) && Hygienic(e.comp, n, Avoid(ps, q)) && Older(e.bvar, n) && Hygienic(e.body, n, Avoid(ps, q))
    {
      BindOk(e.comp, e.bvar, e.isDiscard, e.body, n, Avoid(ps, q));
    }
    assert Hygienic(e, n, Avoid({}, q)) ==> q(BindView(e.bvar)) && Older(e.bvar, n);
  }

  lemma NeatCase(e: Core, n: nat, q: View -> bool)
    requires e.Case?
    ensures Neat(e, n, q)
       <==> q(CaseView(ShapesOf(e.alts), NamesOf(e.alts))) && Neat(e.scrutinee, n, q) && NeatAlts(e.alts, n, q)
  {
    hide Hygienic, Bindings, PayloadVars, ShapesOf, NamesOf;
    var v := CaseView(ShapesOf(e.alts), NamesOf(e.alts));
    forall ps: set<Name> ensures Hygienic(e, n, Avoid(ps, q))
      <==> q(v) && Hygienic(e.scrutinee, n, Avoid(ps, q)) && AltsOk(e.alts, n, Avoid(ps, q))
    {
      CaseOk(e.scrutinee, e.alts, n, Avoid(ps, q));
    }
    if Neat(e, n, q) {
      assert Hygienic(e, n, Avoid({}, q));
      forall i | 0 <= i < |e.alts| ensures NeatAlt(e.alts[i], n, q) { NeatAltOf(e, n, q, i); }
    }
    if q(v) && Neat(e.scrutinee, n, q) && NeatAlts(e.alts, n, q) {
      forall ps: set<Name> ensures Hygienic(e, n, Avoid(ps, q)) {
        forall i | 0 <= i < |e.alts| ensures AltOk(e.alts[i], n, Avoid(ps, q)) { assert NeatAlt(e.alts[i], n, q); }
      }
    }
  }

  lemma NeatAltOf(e: Core, n: nat, q: View -> bool, i: nat)
    requires e.Case? && Neat(e, n, q) && i < |e.alts|
    ensures NeatAlt(e.alts[i], n, q)
  {
    hide Hygienic, Bindings, PayloadVars;
    var a := e.alts[i];
    forall ps: set<Name> ensures AltOk(a, n, Avoid(ps, q)) && Hygienic(a.body, n, Avoid(ps, q)) {
      assert Hygienic(e, n, Avoid(ps, q));
      CaseOk(e.scrutinee, e.alts, n, Avoid(ps, q));
    }
    assert AltOk(a, n, Avoid(PayloadVars(a.pat), q));
    assert PayloadVars(a.pat) == {};
  }

  lemma NeatFree(e: Core, n: nat, q: View -> bool)
    requires Neat(e, n, q)
    ensures SetOlder(FreeNames(e), n)
  {
    hide Hygienic;
    forall x | x in FreeNames(e) ensures Older(x, n) {
      var k :| k in FreeVars(e) && k.name == x;
      assert Hygienic(e, n, Avoid({}, q));
      FreeAreOlder(e, n, Avoid({}, q), k);
    }
  }

  ghost predicate NeatSubs(subs: Subs, n: nat, q: View -> bool) { forall y :: y in subs ==> Neat(subs[y], n, q) }

  lemma SubstNeat(e: Core, subs: Subs, fv: set<Name>, n: nat, q: View -> bool)
    requires Neat(e, n, q) && NeatSubs(subs, n, q) && Stable(q, n)
    ensures var r := SubstMany(e, subs, fv, n); n <= r.1 && Neat(r.0, r.1, q)
  {
    hide Hygienic, SubstMany, Stable;
    var r := SubstMany(e, subs, fv, n);
    forall ps: set<Name> ensures Hygienic(r.0, r.1, Avoid(ps, q)) {
      var more := Avoid(ps + fv, q);
      assert Hygienic(e, n, more);
      forall y | y in subs ensures Hygienic(subs[y], n, more) { assert Neat(subs[y], n, q); }
      SubstHygienic(e, subs, fv, n, more);
      HygienicLater(r.0, r.1, r.1, more, Avoid(ps, q));
    }
  }

  /** A neat body in which no function binds a crossed name. */
  lemma NeatShuns(b: Core, subs: Subs, fv: set<Name>, n: nat, q: View -> bool)
    requires Neat(b, n, q) && FunsAvoid(b, Crossed(subs))
    ensures Hygienic(b, n, Shun(subs, fv))
  {
    hide Hygienic;
    assert Hygienic(b, n, Avoid(fv, q));
    FunsAccepted(b, n, Avoid(fv, q), Crossed(subs));
  }

  /** No `Lam` or `Fix` in `e` binds a name in `fs`. */
  ghost predicate FunsAvoid(e: Core, fs: set<Name>) {
    && (e.Lam? ==> e.param !in fs)
    && (e.Fix? ==> e.name !in fs)
    && forall i :: 0 <= i < |Scopes(e)| ==> FunsAvoid(Scopes(e)[i].body, fs)
  }

  lemma {:induction false} FunsAvoidNone(e: Core)
    ensures FunsAvoid(e, {})
  {
    var ss := Scopes(e);
    forall i | 0 <= i < |ss| ensures FunsAvoid(ss[i].body, {}) { FunsAvoidNone(ss[i].body); }
  }

  lemma {:induction false} FunsAccepted(e: Core, n: nat, avoid: Avoid, fs: set<Name>)
    requires Hygienic(e, n, avoid) && FunsAvoid(e, fs)
    ensures Hygienic(e, n, Avoid(avoid.payloads, FunsOutside(fs)))
  {
    hide Scopes;
    if !e.Var? {
      var ss := Scopes(e);
      forall i | 0 <= i < |ss| ensures Hygienic(ss[i].body, n, Avoid(avoid.payloads, FunsOutside(fs))) {
        FunsAccepted(ss[i].body, n, avoid, fs);
      }
    }
  }

  /** Substituting one term for one variable fills its index. */
  lemma SubstOne(b: Core, x: Name, a: Core, n: nat, q: View -> bool, env: Env)
    requires Neat(b, n, q) && Neat(a, n, q) && Older(x, n) && Stable(q, n)
    ensures var r := SubstFV(b, x, a, FreeNames(a), n);
      n <= r.1 && Neat(r.0, r.1, q) && Er(r.0, env) == Instantiate(Er(b, Extend(env, [x])), [Er(a, env)])
  {
    hide Hygienic, SubstMany, Trans, Er, Act, FreeNames, Older, Stable, FunsAvoid;
    var subs, fv := map[x := a], FreeNames(a);
    SubstNeat(b, subs, fv, n, q);
    NeatFree(a, n, q);
    assert Crossed(subs) == {};
    FunsAvoidNone(b);
    NeatShuns(b, subs, fv, n, q);
    assert Ready(subs, fv, n);
    SubstTrans(b, subs, fv, n, env);
    AppliedOne(env, x, a);
    ErInst(b, env, [x], [Trans(a, env)]);
    assert EraseAll([Trans(a, env)]) == [Erase(Trans(a, env))];
    ErIs(a, env);
    ErIs(SubstFV(b, x, a, fv, n).0, env);
  }

  lemma ErIs(e: Core, env: Env)
    ensures Er(e, env) == Erase(Trans(e, env))
  {
  }

  lemma AppliedOne(env: Env, x: Name, a: Core)
    ensures Applied(env, map[x := a]) == Assign(env, [x], [Trans(a, env)])
  {
    assert IndexOf([x], x) == 0;
  }

  // ---- What a rewrite has to achieve ----

  /** Names that are left to the globals, definitions that may be put in the
      place of globals, and whether to watch which globals are mentioned. */
  datatype Scope = Scope(names: set<Name>, defs: map<VarKey, Core>, strict: bool)

  ghost predicate Leaves(env: Env, D: Scope) { forall x :: x in D.names ==> x !in env }

  /** With a global, `G` has those that its definition mentions. */
  ghost predicate Closes(D: Scope, G: Keys) {
    D.strict && forall g :: g in D.defs && G(g) ==> Only(Meaning(D.defs[g]), G)
  }

  /** Nothing new is mentioned, other than through definitions. */
  ghost predicate Narrows(D: Scope, t: Term, t': Term) {
    forall G: Keys :: Closes(D, G) && Only(t, G) ==> Only(t', G)
  }

  /** In every environment that leaves the names of `D` to the globals, `e`
      refines to `e'`, and mentions nothing new. */
  ghost predicate Better(w: World, D: Scope, e: Core, e': Core) {
    forall env :: Leaves(env, D) ==> Refines(w, Er(e, env), Er(e', env)) && Narrows(D, Er(e, env), Er(e', env))
  }

  lemma BetterRefl(w: World, D: Scope, e: Core)
    ensures Better(w, D, e, e)
  {
    hide Er, Refines, Only;
    forall env ensures Refines(w, Er(e, env), Er(e, env)) { RefinesRefl(w, Er(e, env)); }
  }

  lemma BetterTrans(w: World, D: Scope, a: Core, b: Core, c: Core)
    requires Better(w, D, a, b) && Better(w, D, b, c)
    ensures Better(w, D, a, c)
  {
    hide Er, Refines, Only, Closes;
    forall env | Leaves(env, D) ensures Refines(w, Er(a, env), Er(c, env)) && Narrows(D, Er(a, env), Er(c, env)) {
      assert Narrows(D, Er(a, env), Er(b, env)) && Narrows(D, Er(b, env), Er(c, env));
      assert Refines(w, Er(a, env), Er(b, env)) && Refines(w, Er(b, env), Er(c, env));
      RefinesTrans(w, Er(a, env), Er(b, env), Er(c, env));
    }
  }
}
