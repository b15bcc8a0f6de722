/**
  Known cases at their limits: scrutinees that are constructor spines,
  arguments that never evaluate, and pattern variables that occur in each
  other's replacements.
 */
module KnownLimits {
  import opened CoreIR
  import opened Nameless
  import opened Translate
  import opened Subst
  import opened Hygiene
  import opened SubstCorrect
  import opened SubstLimits
  import opened Records
  import opened Eval
  import opened EvalFacts
  import opened ContractIff
  import opened EraseFacts
  import opened NeatTerms
  import opened Rewrites
  import opened RewriteRight
  import opened KnownRules
  import opened RewriteIff
  import opened DictRules

  // ---- Constructor spines ----

  /** A case only looks at the value of its scrutinee. */
  lemma SameScrutinee(w: World, n: nat, op: Op, s: Term, s': Term, alts: seq<Kid>)
    requires op.OCase? && Ev(w, n, s) == Ev(w, n, s')
    ensures Ev(w, n, Node(op, [Kid(0, s)] + alts)) == Ev(w, n, Node(op, [Kid(0, s')] + alts))
  {
    var a, b := [Kid(0, s)] + alts, [Kid(0, s')] + alts;
    assert a[1..] == alts && b[1..] == alts;
    assert EvAll(w, n, a, 0) == EvAll(w, n, b, 0);
    assert EvAll(w, n, a, 1) == EvAll(w, n, b, 1);
  }

  lemma {:induction false} SpineClean(e: Core, n: nat)
    requires Clean(e, n)
    ensures forall i :: 0 <= i < |SpineArgs(e)| ==> Clean(SpineArgs(e)[i], n)
  {
    hide Neat;
    if e.App? {
      NeatPlain(e, n, Anything());
      assert Kids(e) == [e.fun, e.arg];
      assert Clean(Kids(e)[0], n) && Clean(Kids(e)[1], n);
      SpineClean(e.fun, n);
    } else if e.TyApp? {
      NeatPlain(e, n, Anything());
      assert Kids(e) == [e.expr];
      assert Clean(Kids(e)[0], n);
      SpineClean(e.expr, n);
    }
  }

  /** A case on a spine headed by a bare constructor is the case on the
      constructor the spine is normalized to: resolving that one is right, and
      loses exactly what resolving a constructor loses. */
  lemma SpineCaseIff(w: World, e: Core, alts: seq<Alt>, n: nat)
    requires WorldOk(w) && Normalized(e).Just? && Head(e).args == [] && Clean(Case(e, alts), n)
    requires var c := Case(Normalized(e).value, alts); CtorGuard(c) && CaseOfKnownCtor(c, n).fired
    ensures var con := Normalized(e).value;
      RunsIf(w, Case(e, alts), CaseOfKnownCtor(Case(con, alts), n).e, Hits(w, con, alts[CtorAlt(alts, con.con, con.mod)].pat))
  {
    hide Er, Ev, Neat, Head, SpineArgs, CtorGuard, CaseOfKnownCtor, CtorAlt, Hits;
    var con := Normalized(e).value;
    var c, c1 := Case(e, alts), Case(con, alts);
    NeatCase(c, n, Anything());
    SpineClean(e, n);
    NeatPlain(con, n, Anything());
    assert Kids(con) == SpineArgs(e);
    NeatCase(c1, n, Anything());
    ErCase(c, map[]);
    ErCase(c1, map[]);
    OneOp(c, c1);
    OpShapes(c);
    assert Head(e).args + SpineArgs(e) == SpineArgs(e);
    forall k: nat ensures Ev(w, k, Meaning(c)) == Ev(w, k, Meaning(c1)) {
      SpineEval(w, k, e, map[]);
      SameScrutinee(w, k, OpOf(c), Er(e, map[]), Er(con, map[]), ErAlts(alts, map[]));
    }
    SameYields(w, Meaning(c), Meaning(c1));
    CaseOfKnownCtorIff(w, c1, n);
  }

  lemma SameYields(w: World, t: Term, t': Term)
    requires forall k: nat :: Ev(w, k, t) == Ev(w, k, t')
    ensures forall v :: Yields(w, t, v) <==> Yields(w, t', v)
    ensures Evaluates(w, t) <==> Evaluates(w, t')
  {
    hide Ev;
    forall v ensures Yields(w, t, v) <==> Yields(w, t', v) {}
  }

  // ---- Values appear, never disappear ----

  /** The optimizer can make a failing program succeed: an unused argument is
      dropped unevaluated. The converse needs that it evaluates, as `BetaReduceIff` says. */
  lemma DropsFailingArgument(w: World, x: Name, v: Literal, n: nat, m: nat)
    ensures var c := App(Lam(x, NoTy, Lit(v)), Error);
      && Ev(w, m, Meaning(c)) == Nothing
      && BetaReduce(c, n).fired && Ev(w, m, Meaning(BetaReduce(c, n).e)) == Just(Node(OLit(v), []))
  {
    hide Ev, Er, SubstFV, FreeNames;
    var c := App(Lam(x, NoTy, Lit(v)), Error);
    ErApp(c, map[]);
    ErPlain(Error, map[]);
    AppEval(w, m, Er(c.fun, map[]), Er(c.arg, map[]));
    ErrorFails(w, m);
    LitStays(x, v, n);
    ErLit(v, map[]);
    LitEval(w, m, v);
  }

  lemma LitStays(x: Name, v: Literal, n: nat)
    ensures SubstFV(Lit(v), x, Error, FreeNames(Error), n).0 == Lit(v)
  {
    hide FreeNames;
    var e := Lit(v);
    assert SubstMany(e, map[x := Error], FreeNames(Error), n) == SubstPlain(e, map[x := Error], FreeNames(Error), n);
  }

  lemma ErrorFails(w: World, n: nat)
    ensures Ev(w, n, Node(OError, Args(ErAll(Kids(Error), map[])))) == Nothing
  {
  }

  lemma LitEval(w: World, n: nat, v: Literal)
    ensures Ev(w, n, Node(OLit(v), [])) == Just(Node(OLit(v), []))
  {
  }

  // ---- Crossing pattern variables ----

  /** case P y x of P x y -> \x. y, with the free x and y crossing. */
  function Crossing(): Core {
    Case(Con("P", "", [Var("y", ""), Var("x", "")]),
         [Alt(PCon("P", "", [PVar("x"), PVar("y")]), Lam("x", NoTy, Var("y", "")))])
  }

  /** Outside its guard the constructor rewrite captures: the result is the
      identity function, though the original returns the outer x. */
  lemma CrossingCaptured(n: nat)
    ensures CaseOfKnownCtor(Crossing(), n).e == Lam("x", NoTy, Var("x", ""))
    ensures !CtorGuard(Crossing())
  {
    hide SubstMany, CollectArgSubs, FreeNames, Fits, Sure;
    var c := Crossing();
    var subs := CrossingSubs();
    assert "x" != "y" by { assert "x"[0] != "y"[0]; }
    assert |subs| > 0 by { assert "x" in subs; }
    var col := CollectArgSubs(c.alts[0].pat.args, c.scrutinee.args, Collected(map[], {}));
    ShadowResult(subs, col.fv, n, "x", "y");
    assert IsLocal(subs["y"], "x");
    assert CtorSubs(c) == subs;
  }

  /** What the pattern variables are replaced by. */
  lemma CrossingSubs() returns (subs: Subs)
    ensures subs == map["x" := Var("y", ""), "y" := Var("x", "")]
    ensures var c := Crossing(); CollectArgSubs(c.alts[0].pat.args, c.scrutinee.args, Collected(map[], {})).subs == subs
  {
    var c := Crossing();
    var ps, es := c.alts[0].pat.args, c.scrutinee.args;
    var acc0 := Collected(map[], {});
    var acc1 := CollectPatSubs(ps[0], es[0], acc0);
    assert ps[1..] == [PVar("y")] && es[1..] == [Var("x", "")];
    var acc2 := CollectPatSubs(ps[1..][0], es[1..][0], acc1);
    assert ps[1..][1..] == [];
    assert CollectArgSubs(ps, es, acc0) == acc2;
    assert "x" != "y" by { assert "x"[0] != "y"[0]; }
    subs := acc2.subs;
  }
}
