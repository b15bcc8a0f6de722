/**
  Case of a known dictionary: the definition may stand for the variable when
  the world holds its value and nothing in scope hides a name it uses.
 */
module DictRules {
  import opened CoreIR
  import opened Nameless
  import opened Translate
  import opened Subst
  import opened Hygiene
  import opened Records
  import opened Eval
  import opened EvalFacts
  import opened ContractEval
  import opened Chains
  import opened EraseFacts
  import opened Mentions
  import opened NeatTerms
  import opened Rewrites
  import opened RewriteRight
  import opened KnownRules

  // ---- Constructor spines ----

  method NormalizeConApp(expr: Core) returns (r: Maybe<Core>)
    ensures r == Normalized(expr)
  {
    var valueArgs: seq<Core> := [];
    var cur := expr;
    while cur.App? || cur.TyApp?
      invariant Head(cur) == Head(expr)
      invariant SpineArgs(cur) + Backwards(valueArgs) == SpineArgs(expr)
      decreases cur
    {
      if cur.App? {
        valueArgs := valueArgs + [cur.arg];
        cur := cur.fun;
      } else {
        cur := cur.expr;
      }
    }
    if !cur.Con? || |valueArgs| == 0 {
      return Nothing;
    }
    var args: seq<Core> := [];
    for i := 0 to |valueArgs|
      invariant args == Backwards(valueArgs[..i])
    {
      args := [valueArgs[i]] + args;
    }
    assert valueArgs[..|valueArgs|] == valueArgs && SpineArgs(expr) == args;
    return Just(Con(cur.con, cur.mod, args));
  }

  function Backwards(es: seq<Core>): seq<Core> {
    seq(|es|, i requires 0 <= i < |es| => es[|es| - 1 - i])
  }

  /** Evaluating a spine headed by a constructor collects its arguments after
      those the constructor already holds. */
  lemma {:induction false} SpineEval(w: World, n: nat, e: Core, env: Env)
    requires Head(e).Con?
    ensures Ev(w, n, Er(e, env)) == Ev(w, n, Er(Con(Head(e).con, Head(e).mod, Head(e).args + SpineArgs(e)), env))
  {
    hide Er, Ev;
    if e.App? {
      SpineEval(w, n, e.fun, env);
      var h := Head(e);
      var before := h.args + SpineArgs(e.fun);
      AppConEval(w, n, e, before, env);
      assert h.args + SpineArgs(e) == before + [e.arg];
    } else if e.TyApp? {
      SpineEval(w, n, e.expr, env);
      ErTypes(e, env);
    } else {
      assert e.args + [] == e.args;
    }
  }

  lemma ConEval(w: World, n: nat, c: Core, env: Env)
    requires c.Con?
    ensures var r := EvAll(w, n, Args(ErAll(c.args, env)), |c.args|);
      Ev(w, n, Er(c, env)) == if r.Just? then Just(Node(OCon(c.con, c.mod), Args(r.value))) else Nothing
  {
    hide Er;
    ErCon(c, env);
  }

  /** Evaluating one more argument. */
  lemma {:induction false} EvAllPrefix(w: World, n: nat, a: seq<Kid>, b: seq<Kid>, k: nat)
    requires k <= |a| && k <= |b| && a[..k] == b[..k]
    ensures EvAll(w, n, a, k) == EvAll(w, n, b, k)
    decreases k
  {
    hide Ev;
    if k > 0 {
      assert a[k - 1] == a[..k][k - 1] && b[k - 1] == b[..k][k - 1];
      assert a[..k - 1] == a[..k][..k - 1] && b[..k - 1] == b[..k][..k - 1];
      EvAllPrefix(w, n, a, b, k - 1);
    }
  }

  lemma AppConEval(w: World, n: nat, e: Core, before: seq<Core>, env: Env)
    requires e.App? && Head(e).Con?
    requires Ev(w, n, Er(e.fun, env)) == Ev(w, n, Er(Con(Head(e).con, Head(e).mod, before), env))
    ensures Ev(w, n, Er(e, env)) == Ev(w, n, Er(Con(Head(e).con, Head(e).mod, before + [e.arg]), env))
  {
    hide Er, Ev, Head;
    var h := Head(e);
    var c, c' := Con(h.con, h.mod, before), Con(h.con, h.mod, before + [e.arg]);
    ConEval(w, n, c, env);
    ConEval(w, n, c', env);
    var ks, ks' := Args(ErAll(c.args, env)), Args(ErAll(c'.args, env));
    assert ks'[..|ks|] == ks[..|ks|];
    EvAllPrefix(w, n, ks', ks, |ks|);
    assert ks'[|ks|] == Kid(0, Er(e.arg, env));
    ErApp(e, env);
    AppEval(w, n, Er(e.fun, env), Er(e.arg, env));
    var r := EvAll(w, n, ks, |ks|);
    if r.Just? { assert Bodies(Args(r.value)) == r.value; }
  }

  lemma AppEval(w: World, n: nat, f: Term, a: Term)
    ensures var t := Node(OApp, [Kid(0, f), Kid(0, a)]);
      Ev(w, n, t) == if Ev(w, n, f).Just? && Ev(w, n, a).Just?
        then Run(w, n, ApplyStep(w, Ev(w, n, f).value, Ev(w, n, a).value)) else Nothing
  {
    var kids := [Kid(0, f), Kid(0, a)];
    var t := Node(OApp, kids);
    if Ev(w, n, f).Just? && Ev(w, n, a).Just? {
      EvIntro(w, n, OApp, kids, [Ev(w, n, f).value, Ev(w, n, a).value]);
    } else {
      assert EvAll(w, n, kids, 2).Nothing? by {
        if EvAll(w, n, kids, 1).Just? { EvAllAt(w, n, kids, 1, 0); }
      }
    }
  }

  /** Normalizing a spine that evaluates keeps its value exactly when the head
      constructor holds no arguments yet. */
  lemma NormalizedIff(w: World, n: nat, e: Core, env: Env)
    requires Normalized(e).Just? && Ev(w, n, Er(e, env)).Just?
    ensures Ev(w, n, Er(Normalized(e).value, env)) == Ev(w, n, Er(e, env)) <==> Head(e).args == []
  {
    hide Er, Ev, EvAll, Head, SpineArgs;
    var h, args := Head(e), SpineArgs(e);
    SpineEval(w, n, e, env);
    ConEval(w, n, Con(h.con, h.mod, h.args + args), env);
    ConEval(w, n, Con(h.con, h.mod, args), env);
    if h.args == [] { assert h.args + args == args; }
  }

  // ---- Dictionaries ----

  /** The form in which a dictionary is put in the place of its variable. */
  function Settled(d: Core): Core { if Normalized(d).Just? then Normalized(d).value else d }

  /** The variable and what its definition mentions are left to the globals,
      where the variable has the value of the definition. */
  ghost predicate DictOk(w: World, D: Scope, q: View -> bool, n: nat, g: VarKey, d: Core) {
    && (g.mod == "" ==> g.name in D.names) && (forall x :: IsLocal(d, x) ==> x in D.names)
    && g in w.globals && (exists m: nat :: Ev(w, m, Meaning(d)) == Just(w.globals[g]))
    && (Normalized(d).Just? ==> Head(d).args == []) && Neat(Settled(d), n, q)
    && g in D.defs && D.defs[g] == Settled(d)
  }

  /** This holds of every dictionary that the world has. */
  ghost predicate DictsOk(w: World, D: Scope, q: View -> bool, n: nat, dicts: Dicts) {
    forall g :: g in dicts && g in w.globals ==> DictOk(w, D, q, n, g, dicts[g])
  }

  /** The dictionary a case looks at. */
  predicate LooksUp(dicts: Dicts, c: Core) {
    c.Case? && c.scrutinee.Var? && VarKey(c.scrutinee.mod, c.scrutinee.name) in dicts
  }

  function Found(dicts: Dicts, c: Core): Core
    requires LooksUp(dicts, c)
  {
    dicts[VarKey(c.scrutinee.mod, c.scrutinee.name)]
  }

  /** The world has the dictionary that is looked up, and the case on it stays
      within the guard of the constructor rewrite. */
  ghost predicate DictGuard(w: World, dicts: Dicts, c: Core) {
    LooksUp(dicts, c) ==>
      VarKey(c.scrutinee.mod, c.scrutinee.name) in w.globals && CtorGuard(Case(Settled(Found(dicts, c)), c.alts))
  }

  lemma {:induction false} SpineLocals(e: Core, x: Name)
    requires Head(e).Con? && IsLocal(Con(Head(e).con, Head(e).mod, SpineArgs(e)), x)
    ensures IsLocal(e, x)
  {
    var c := Con(Head(e).con, Head(e).mod, SpineArgs(e));
    var i :| 0 <= i < |Scopes(c)| && x !in Scopes(c)[i].names && IsLocal(Scopes(c)[i].body, x);
    assert Scopes(c)[i].body == SpineArgs(e)[i];
    ArgLocal(e, i, x);
  }

  lemma {:induction false} ArgLocal(e: Core, i: nat, x: Name)
    requires i < |SpineArgs(e)| && IsLocal(SpineArgs(e)[i], x)
    ensures IsLocal(e, x)
  {
    if e.App? {
      if i < |SpineArgs(e.fun)| {
        ArgLocal(e.fun, i, x);
        LocalInScope(e, 0, x);
      } else {
        LocalInScope(e, 1, x);
      }
    } else if e.TyApp? {
      ArgLocal(e.expr, i, x);
      LocalInScope(e, 0, x);
    }
  }

  /** An expression whose locals are left to the globals means the same in
      every environment. */
  lemma GlobalMeaning(e: Core, D: Scope, env: Env)
    requires Leaves(env, D) && forall x :: IsLocal(e, x) ==> x in D.names
    ensures Er(e, env) == Meaning(e)
  {
    forall x | IsLocal(e, x) ensures Lookup(env, x) == Lookup(map[], x) {}
    TransAgree(e, map[], env);
  }

  lemma DictMeaning(w: World, D: Scope, q: View -> bool, n: nat, g: VarKey, d: Core, env: Env)
    requires DictOk(w, D, q, n, g, d) && Leaves(env, D)
    ensures Refines(w, Free(g), Er(Settled(d), env)) && Narrows(D, Free(g), Er(Settled(d), env))
  {
    hide Ev, Er, Neat, Refines, Closed, Meaning, Head, SpineArgs, IsLocal;
    var m: nat :| Ev(w, m, Meaning(d)) == Just(w.globals[g]);
    GlobalMeaning(d, D, env);
    if Normalized(d).Just? {
      SpineEval(w, m, d, env);
      assert Head(d).args + SpineArgs(d) == SpineArgs(d);
      forall x | IsLocal(Settled(d), x) ensures x in D.names { SpineLocals(d, x); }
    }
    GlobalMeaning(Settled(d), D, env);
    MeaningClosed(Settled(d));
    FreeEval(w, g);
    RefinesSame(w, Free(g), Er(Settled(d), env), 0, m);
  }

  lemma FreeEval(w: World, g: VarKey)
    requires g in w.globals
    ensures Ev(w, 0, Free(g)) == Just(w.globals[g]) && Closed(Free(g), 0)
  {
  }

  /** Whichever way the rewrite goes, it resolves the case on the settled dictionary. */
  lemma DictOutcome(dicts: Dicts, c: Core, n: nat)
    requires LooksUp(dicts, c)
    ensures var o, r := CaseOfKnownDict(dicts, c, n), CaseOfKnownCtor(Case(Settled(Found(dicts, c)), c.alts), n);
      o.e == r.e && o.n == r.n
  {
    hide SubstMany, CollectArgSubs, CtorAlt;
  }

  /** The dictionary rewrite keeps terms neat and refines them, wherever the
      names of the dictionary are left to the globals. */
  lemma CaseOfKnownDictRight(w: World, D: Scope, q: View -> bool, dicts: Dicts, c: Core, n: nat)
    requires DictsOk(w, D, q, n, dicts) && Neat(c, n, q) && Stable(q, n) && DictGuard(w, dicts, c)
    ensures var o := CaseOfKnownDict(dicts, c, n); n <= o.n && Neat(o.e, o.n, q) && Better(w, D, c, o.e)
  {
    hide Er, Neat, Stable, CaseOfKnownCtor, CaseOfKnownDict, CtorGuard, Refines, DictOk, Narrows;
    if LooksUp(dicts, c) {
      var d, g := Found(dicts, c), VarKey(c.scrutinee.mod, c.scrutinee.name);
      var c1 := Case(Settled(d), c.alts);
      DictOutcome(dicts, c, n);
      NeatCase(c, n, q);
      SettledNeat(w, D, q, n, g, d);
      NeatCase(c1, n, q);
      CaseOfKnownCtorRight(c1, n, q);
      var o := CaseOfKnownCtor(c1, n);
      Right1Better(w, D, c1, n, q, o);
      forall env | Leaves(env, D) ensures Refines(w, Er(c, env), Er(c1, env)) && Narrows(D, Er(c, env), Er(c1, env)) {
        ErCase(c, env);
        ErCase(c1, env);
        OneOp(c, c1);
        DictScrutinee(w, D, q, n, g, d, c.scrutinee, env);
        ScrutineeRefines(w, D, OpOf(c), Er(c.scrutinee, env), Er(Settled(d), env), ErAlts(c.alts, env));
      }
      BetterTrans(w, D, c, c1, o.e);
    } else {
      NotFound(dicts, c, n);
      BetterRefl(w, D, c);
    }
  }

  lemma SettledNeat(w: World, D: Scope, q: View -> bool, n: nat, g: VarKey, d: Core)
    requires DictOk(w, D, q, n, g, d)
    ensures Neat(Settled(d), n, q)
  {
  }

  lemma OneOp(c: Core, c1: Core)
    requires c.Case? && c1.Case? && c1.alts == c.alts
    ensures OpOf(c1) == OpOf(c)
  {
  }

  lemma NotFound(dicts: Dicts, c: Core, n: nat)
    requires !LooksUp(dicts, c)
    ensures CaseOfKnownDict(dicts, c, n) == Kept(c, n)
  {
  }

  lemma DictScrutinee(w: World, D: Scope, q: View -> bool, n: nat, g: VarKey, d: Core, s: Core, env: Env)
    requires DictOk(w, D, q, n, g, d) && Leaves(env, D)
    requires s.Var? && g == VarKey(s.mod, s.name)
    ensures Refines(w, Er(s, env), Er(Settled(d), env)) && Narrows(D, Er(s, env), Er(Settled(d), env))
  {
    hide Refines, Narrows;
    DictMeaning(w, D, q, n, g, d, env);
  }

  lemma ScrutineeRefines(w: World, D: Scope, op: Op, s: Term, s': Term, alts: seq<Kid>)
    requires Refines(w, s, s') && Narrows(D, s, s')
    ensures var u, t := Node(op, [Kid(0, s)] + alts), Node(op, [Kid(0, s')] + alts); Refines(w, u, t) && Narrows(D, u, t)
  {
    hide Refines, Closes, Only;
    var a, b := [Kid(0, s)] + alts, [Kid(0, s')] + alts;
    forall i | 0 <= i < |a| ensures b[i].binds == a[i].binds && Refines(w, a[i].body, b[i].body) {
      if i > 0 { RefinesRefl(w, a[i].body); }
    }
    RefinesNode(w, op, a, b);
    NarrowsNode(D, op, a, b);
  }

  /** A node with narrower children is narrower. */
  lemma NarrowsNode(D: Scope, op: Op, a: seq<Kid>, b: seq<Kid>)
    requires |a| == |b| && forall i :: 0 <= i < |a| ==> Narrows(D, a[i].body, b[i].body)
    ensures Narrows(D, Node(op, a), Node(op, b))
  {
    hide Only, Closes;
    forall G: Keys | Closes(D, G) && Only(Node(op, a), G) ensures Only(Node(op, b), G) {
      forall i | 0 <= i < |b| ensures Only(b[i].body, G) {
        KidOnly(Node(op, a), i, G);
        assert Narrows(D, a[i].body, b[i].body);
      }
      NodeOnly(op, b, G);
    }
  }
}
