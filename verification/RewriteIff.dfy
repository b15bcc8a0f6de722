/**
  Each rewrite in both directions. The commuting rewrites, force of thunk,
  primitive absorption and known literals change nothing. The others drop the
  evaluation of some subterm, and the original computes a value exactly when
  the result computes it and everything dropped evaluates.
 */
module RewriteIff {
  import opened CoreIR
  import opened Nameless
  import opened Translate
  import opened Hygiene
  import opened SubstCorrect
  import opened Records
  import opened Eval
  import opened EvalFacts
  import opened Contract
  import opened ContractEval
  import opened ContractIff
  import opened EraseFacts
  import opened NeatTerms
  import opened Rewrites
  import opened RewriteRight
  import opened KnownRules
  import opened CommuteRules

  /** Hygienic, with no further demand on its nodes. */
  ghost predicate Clean(c: Core, n: nat) { Neat(c, n, Anything()) }

  lemma AnythingStable(n: nat)
    ensures Stable(Anything(), n)
  {
  }

  /** Both programs have the same values. */
  ghost predicate SameRuns(w: World, c: Core, e: Core) {
    forall v :: Yields(w, Meaning(c), v) <==> Yields(w, Meaning(e), v)
  }

  /** `c` evaluates exactly when `e` does and `cond` holds, and to the same
      first-order value. */
  ghost predicate RunsIf(w: World, c: Core, e: Core, cond: bool) {
    && (Evaluates(w, Meaning(c)) <==> Evaluates(w, Meaning(e)) && cond)
    && forall v :: Ground(v) ==> (Yields(w, Meaning(c), v) <==> Yields(w, Meaning(e), v) && cond)
  }

  ghost predicate AllRun(w: World, es: seq<Core>) {
    forall i :: 0 <= i < |es| ==> Evaluates(w, Meaning(es[i]))
  }

  lemma AllRunKids(w: World, es: seq<Core>, kids: seq<Kid>)
    requires kids == Args(ErAll(es, map[]))
    ensures AllEvaluate(w, kids) <==> AllRun(w, es)
  {
    hide Er, Evaluates;
    assert forall i :: 0 <= i < |es| ==> kids[i] == Kid(0, Meaning(es[i]));
  }

  // ---- Nothing changes ----

  lemma CaseOfCaseIff(w: World, c: Core, n: nat)
    requires Clean(c, n)
    ensures SameRuns(w, c, CaseOfCase(c, n).e)
  {
    hide Er, CommuteCase, Yields;
    var o := CaseOfCase(c, n);
    AnythingStable(n);
    CaseOfCaseRight(c, n, Anything());
    if o.fired {
      forall v ensures Yields(w, Meaning(c), v) <==> Yields(w, Meaning(o.e), v) { CommuteCaseIff(w, Meaning(c), Meaning(o.e), v); }
    }
  }

  lemma BindOfCaseIff(w: World, c: Core, n: nat)
    requires Clean(c, n)
    ensures SameRuns(w, c, BindOfCase(c, n).e)
  {
    hide Er, CommuteCase, Yields;
    var o := BindOfCase(c, n);
    AnythingStable(n);
    BindOfCaseRight(c, n, Anything());
    if o.fired {
      forall v ensures Yields(w, Meaning(c), v) <==> Yields(w, Meaning(o.e), v) { CommuteCaseIff(w, Meaning(c), Meaning(o.e), v); }
    }
  }

  lemma ForceThunkElimIff(w: World, c: Core, n: nat)
    requires Clean(c, n)
    ensures SameRuns(w, c, ForceThunkElim(c, n).e)
  {
    hide Er, ForceThunk, Yields;
    var o := ForceThunkElim(c, n);
    AnythingStable(n);
    ForceThunkElimRight(c, n, Anything());
    if o.fired {
      forall v ensures Yields(w, Meaning(c), v) <==> Yields(w, Meaning(o.e), v) { ForceThunkIff(w, Meaning(c), Meaning(o.e), v); }
    }
  }

  lemma PrimOpAbsorbIff(w: World, c: Core, n: nat)
    requires Clean(c, n)
    ensures SameRuns(w, c, PrimOpAbsorb(c, n).e)
  {
    hide Er, PrimAbsorb, Yields;
    var o := PrimOpAbsorb(c, n);
    AnythingStable(n);
    PrimOpAbsorbRight(c, n, Anything());
    if o.fired {
      forall v ensures Yields(w, Meaning(c), v) <==> Yields(w, Meaning(o.e), v) { PrimAbsorbIff(w, Meaning(c), Meaning(o.e), v); }
    }
  }

  // ---- Exactly what is dropped ----

  /** The argument has to evaluate. */
  lemma BetaReduceIff(w: World, c: Core, n: nat)
    requires WorldOk(w) && Clean(c, n) && BetaReduce(c, n).fired
    ensures RunsIf(w, c, BetaReduce(c, n).e, Evaluates(w, Meaning(c.arg)))
  {
    hide Er, Beta, Closed, Yields, Evaluates, WorldOk, Ground;
    var e := BetaReduce(c, n).e;
    var u, t := Meaning(c), Meaning(e);
    AnythingStable(n);
    BetaReduceRight(c, n, Anything());
    MeaningClosed(c);
    ErApp(c, map[]);
    BetaIff(w, u, t, u);
    forall v ensures Ground(v) ==> (Yields(w, u, v) <==> Yields(w, t, v) && Evaluates(w, Meaning(c.arg))) {
      BetaIff(w, u, t, v);
    }
  }

  /** What the computation evaluates to, and that it is no pending effect. */
  ghost predicate GoesOn(w: World, e: Core) { exists x :: Yields(w, Meaning(e), x) && !RunsEffect(x) }

  lemma BindPureElimIff(w: World, c: Core, n: nat)
    requires WorldOk(w) && Clean(c, n) && BindPureElim(c, n).fired
    ensures RunsIf(w, c, BindPureElim(c, n).e, GoesOn(w, c.comp.expr))
  {
    hide Er, BindPure, Closed, Yields, Evaluates, WorldOk, Ground, RunsEffect;
    var e := BindPureElim(c, n).e;
    var u, t := Meaning(c), Meaning(e);
    AnythingStable(n);
    BindPureElimRight(c, n, Anything());
    MeaningClosed(c);
    ErBind(c, map[]);
    ErOne(c.comp, c.comp.expr, map[]);
    BindPureIff(w, u, t, u);
    forall v ensures Ground(v) ==> (Yields(w, u, v) <==> Yields(w, t, v) && GoesOn(w, c.comp.expr)) {
      BindPureIff(w, u, t, v);
    }
  }

  /** Every field has to evaluate, under distinct labels. */
  lemma RecordProjKnownIff(w: World, c: Core, n: nat, v: Term)
    requires Clean(c, n) && RecordProjKnown(c, n).fired
    ensures var r := c.record;
      Yields(w, Meaning(c), v)
      <==> Yields(w, Meaning(RecordProjKnown(c, n).e), v) && Uniq(Labels(r.fields)) && AllRun(w, Kids(r))
  {
    hide Er, Yields, Evaluates, Uniq;
    var e, r := RecordProjKnown(c, n).e, c.record;
    AnythingStable(n);
    RecordProjKnownRight(c, n, Anything());
    ErOne(c, r, map[]);
    ErPlain(r, map[]);
    AllRunKids(w, Kids(r), Meaning(r).kids);
    ProjKnownIff(w, Meaning(c), Meaning(e), v);
  }

  /** Every inner update has to evaluate, the shadowed ones too, under distinct labels. */
  lemma RecordUpdateChainIff(w: World, c: Core, n: nat, v: Term)
    requires WorldOk(w) && Clean(c, n) && RecordUpdateChain(c, n).fired
    ensures var inner := c.record;
      Yields(w, Meaning(c), v)
      <==> Yields(w, Meaning(RecordUpdateChain(c, n).e), v) && Uniq(Labels(inner.updates)) && AllRun(w, Kids(inner)[1..])
  {
    hide Er, Yields, Evaluates, Uniq, Closed, WorldOk, UpdateChain;
    var e, inner := RecordUpdateChain(c, n).e, c.record;
    AnythingStable(n);
    RecordUpdateChainRight(c, n, Anything());
    MeaningClosed(c);
    ErUpdate(c, map[]);
    ErUpdate(inner, map[]);
    ErPlain(inner, map[]);
    var kids := Meaning(inner).kids;
    assert kids[1..] == Args(ErAll(Kids(inner)[1..], map[]));
    AllRunKids(w, Kids(inner)[1..], kids[1..]);
    UpdateChainIff(w, Meaning(c), Meaning(e), v);
  }

  /** The scrutinee evaluates to something the pattern matches. */
  ghost predicate Hits(w: World, e: Core, p: Pattern) {
    exists x :: Yields(w, Meaning(e), x) && Match(ShapeOf(p), x).Just?
  }

  lemma KnownCaseRuns(w: World, c: Core, i: nat, e: Core)
    requires WorldOk(w) && c.Case? && i < |c.alts| && KnownAt(c, i, e, map[])
    ensures RunsIf(w, c, e, Hits(w, c.scrutinee, c.alts[i].pat))
  {
    hide Er, KnownCaseAt, Closed, Yields, Evaluates, WorldOk, Ground, Match, ShapeOf;
    var u, t := Meaning(c), Meaning(e);
    MeaningClosed(c);
    ErCase(c, map[]);
    OpShapes(c);
    var cs :| KnownCaseAt(u, t, i, cs);
    KnownCaseIff(w, u, t, i, cs, u);
    forall v ensures Ground(v) ==> (Yields(w, u, v) <==> Yields(w, t, v) && Hits(w, c.scrutinee, c.alts[i].pat)) {
      KnownCaseIff(w, u, t, i, cs, v);
    }
  }

  /** The constructor has to evaluate, to a value its alternative matches. */
  lemma CaseOfKnownCtorIff(w: World, c: Core, n: nat)
    requires WorldOk(w) && Clean(c, n) && CtorGuard(c) && CaseOfKnownCtor(c, n).fired
    ensures var alt := c.alts[CtorAlt(c.alts, c.scrutinee.con, c.scrutinee.mod)];
      RunsIf(w, c, CaseOfKnownCtor(c, n).e, Hits(w, c.scrutinee, alt.pat))
  {
    hide Er, RunsIf, KnownAt, CtorGuard, Hits;
    AnythingStable(n);
    CaseOfKnownCtorRight(c, n, Anything());
    KnownCaseRuns(w, c, CtorAlt(c.alts, c.scrutinee.con, c.scrutinee.mod), CaseOfKnownCtor(c, n).e);
  }

  /** Where the alternative is sure to match, every argument has to evaluate,
      also those that no variable stands for. */
  lemma SureHits(w: World, e: Core, p: Pattern)
    requires e.Con? && Sure(p, e)
    ensures Hits(w, e, p) <==> AllRun(w, e.args)
  {
    hide Er, Ev, Evaluates, Match, ShapeOf, Certain;
    var s := Meaning(e);
    ErCon(e, map[]);
    SureCertain(p, e, map[]);
    AllRunKids(w, e.args, s.kids);
    var k := |s.kids|;
    assert s.kids[..k] == s.kids;
    if Hits(w, e, p) {
      var x :| Yields(w, s, x);
      var n: nat :| Ev(w, n, s) == Just(x);
      var _, _ := EvNode(w, n, s);
      Scatter(w, n, s.kids, k);
    }
    if AllRun(w, e.args) {
      var n, vs := Gather(w, s.kids, k);
      forall i | 0 <= i < k ensures Ev(w, n, s.kids[i].body) == Just(vs[i]) { EvAllAt(w, n, s.kids, k, i); }
      EvIntro(w, n, s.op, s.kids, vs);
      CertainMatch(w, n, ShapeOf(p), s);
      assert Yields(w, s, Ev(w, n, s).value);
    }
  }

  /** A literal is a value, so nothing is dropped. */
  lemma CaseOfKnownLitIff(w: World, c: Core, n: nat)
    requires WorldOk(w) && Clean(c, n) && LitGuard(c)
    ensures RunsIf(w, c, CaseOfKnownLit(c, n).e, true)
  {
    hide Er, KnownAt, LitGuard, Ev, Ground, LitAlt;
    AnythingStable(n);
    CaseOfKnownLitRight(c, n, Anything());
    if CaseOfKnownLit(c, n).fired {
      var v := c.scrutinee.value;
      var i := LitAlt(c.alts, v, 0, |c.alts|);
      LitAltIs(c.alts, v, 0, |c.alts|);
      KnownCaseRuns(w, c, i, CaseOfKnownLit(c, n).e);
      ErLit(v, map[]);
      EvIntro(w, 0, OLit(v), [], []);
      assert Yields(w, Meaning(c.scrutinee), Node(OLit(v), []));
    }
  }
}
