/**
  Erasure commutes with renumbering and filling indices, and what erased
  translations of the Core formers look like.
 */
module EraseFacts {
  import opened CoreIR
  import opened Nameless
  import opened Translate
  import opened Eval
  import opened EvalFacts
  import ContractClosed
  import opened Hygiene
  import opened SubstCorrect

  predicate Vanishes(op: Op, kids: seq<Kid>) {
    (op.OTyApp? || op.OTyLam?) && |kids| == 1 && kids[0].binds == 0
  }

  lemma EraseNode(op: Op, kids: seq<Kid>)
    ensures Vanishes(op, kids) ==> Erase(Node(op, kids)) == Erase(kids[0].body)
    ensures !Vanishes(op, kids) ==> Erase(Node(op, kids)) == Node(EraseOp(op), EraseKids(kids))
  {
  }

  lemma {:induction false} EraseShift(t: Term, k: nat, c: nat)
    ensures Erase(Shift(t, k, c)) == Shift(Erase(t), k, c)
  {
    if t.Node? {
      var kids, kids' := t.kids, ShiftKids(t.kids, k, c);
      forall i | 0 <= i < |kids|
        ensures Erase(kids'[i].body) == Shift(Erase(kids[i].body), k, c + kids[i].binds)
      {
        assert kids[i].body < kids[i];
        EraseShift(kids[i].body, k, c + kids[i].binds);
      }
      EraseNode(t.op, kids);
      EraseNode(t.op, kids');
      if !Vanishes(t.op, kids) { assert EraseKids(kids') == ShiftKids(EraseKids(kids), k, c); }
    }
  }

  function EraseAll(us: seq<Term>): seq<Term> { seq(|us|, i requires 0 <= i < |us| => Erase(us[i])) }

  lemma {:induction false} EraseInst(t: Term, us: seq<Term>, c: nat)
    ensures Erase(Act(t, Inst(us), c)) == Act(Erase(t), Inst(EraseAll(us)), c)
  {
    match t
    case Bound(i) => if c <= i < c + |us| { EraseShift(us[i - c], c, 0); }
    case Free(_) =>
    case Node(op, kids) =>
      var kids' := ActKids(kids, Inst(us), c);
      forall i | 0 <= i < |kids|
        ensures Erase(kids'[i].body) == Act(Erase(kids[i].body), Inst(EraseAll(us)), c + kids[i].binds)
      {
        assert kids[i].body < kids[i];
        EraseInst(kids[i].body, us, c + kids[i].binds);
      }
      EraseNode(op, kids);
      EraseNode(op, kids');
      if !Vanishes(op, kids) { assert EraseKids(kids') == ActKids(EraseKids(kids), Inst(EraseAll(us)), c); }
  }

  /** The erased meaning of a Core term in an environment. */
  function Er(e: Core, env: Env): Term { Erase(Trans(e, env)) }

  function ErKid(u: Under, env: Env): Kid { Kid(|u.names|, Er(u.body, Extend(env, u.names))) }

  function ErKids(e: Core, env: Env): seq<Kid> {
    seq(|Scopes(e)|, i requires 0 <= i < |Scopes(e)| => ErKid(Scopes(e)[i], env))
  }

  lemma ErNode(e: Core, env: Env)
    requires !e.Var? && !e.TyApp? && !e.TyLam?
    ensures Er(e, env) == Node(EraseOp(OpOf(e)), ErKids(e, env))
  {
    hide Scopes;
    var kids := TransKids(e, Scopes(e), env);
    EraseNode(OpOf(e), kids);
    assert EraseKids(kids) == ErKids(e, env);
  }

  lemma ErTypes(e: Core, env: Env)
    requires e.TyApp? || e.TyLam?
    ensures Er(e, env) == Er(if e.TyApp? then e.expr else e.body, env)
  {
    ExtendNil(env);
    var kids := TransKids(e, Scopes(e), env);
    assert kids == [Kid(0, Trans(if e.TyApp? then e.expr else e.body, env))];
    EraseNode(OpOf(e), kids);
  }

  lemma ErPlain(e: Core, env: Env)
    requires !e.Var? && !e.TyApp? && !e.TyLam? && !Subst.Binds(e)
    ensures Er(e, env) == Node(EraseOp(OpOf(e)), Args(ErAll(Kids(e), env)))
  {
    hide Scopes;
    ErNode(e, env);
    ExtendNil(env);
    PlainNames(e);
    assert ErKids(e, env) == Args(ErAll(Kids(e), env));
  }

  function ErAll(es: seq<Core>, env: Env): seq<Term> {
    seq(|es|, i requires 0 <= i < |es| => Er(es[i], env))
  }

  lemma ErCase(e: Core, env: Env)
    requires e.Case?
    ensures Er(e, env) == Node(OpOf(e), [Kid(0, Er(e.scrutinee, env))] + ErAlts(e.alts, env))
  {
    hide Bindings;
    ErNode(e, env);
    CaseScopes(e);
    ExtendNil(env);
    assert ErKids(e, env) == [Kid(0, Er(e.scrutinee, env))] + ErAlts(e.alts, env);
  }

  function ErAlts(alts: seq<Alt>, env: Env): seq<Kid> {
    seq(|alts|, i requires 0 <= i < |alts| =>
      Kid(|Bindings(alts[i].pat)|, Er(alts[i].body, Extend(env, Bindings(alts[i].pat)))))
  }

  lemma ErBind(e: Core, env: Env)
    requires e.Bind?
    ensures Er(e, env) == Node(OpOf(e), [Kid(0, Er(e.comp, env)), Kid(1, Er(e.body, Extend(env, [e.bvar])))])
  {
    ErNode(e, env);
    ExtendNil(env);
    assert ErKids(e, env) == [Kid(0, Er(e.comp, env)), Kid(1, Er(e.body, Extend(env, [e.bvar])))];
  }

  lemma ErLam(e: Core, env: Env)
    requires e.Lam?
    ensures Er(e, env) == Node(OLam(NoTy), [Kid(1, Er(e.body, Extend(env, [e.param])))])
  {
    ErNode(e, env);
    assert ErKids(e, env) == [Kid(1, Er(e.body, Extend(env, [e.param])))];
  }

  /** Naming the variables of a binder and then filling them. */
  lemma ErInst(e: Core, env: Env, xs: seq<Name>, us: seq<Term>)
    requires |us| == |xs|
    ensures Erase(Trans(e, Assign(env, xs, us))) == Instantiate(Er(e, Extend(env, xs)), EraseAll(us))
  {
    TransInst(e, env, xs, us);
    EraseInst(Trans(e, Extend(env, xs)), us, 0);
  }

  // ---- Whole expressions ----

  lemma {:induction false} TransClosed(e: Core, env: Env, c: nat)
    requires forall x :: x in env ==> Closed(env[x], c)
    ensures Closed(Trans(e, env), c)
  {
    hide Scopes;
    if !e.Var? {
      var ss := Scopes(e);
      var kids := TransKids(e, ss, env);
      forall i | 0 <= i < |ss| ensures Closed(kids[i].body, c + kids[i].binds) {
        var xs := ss[i].names;
        var env' := Extend(env, xs);
        forall x | x in env' ensures Closed(env'[x], c + |xs|) {
          if x !in xs { ContractClosed.ShiftRange(env[x], |xs|, 0, c); }
        }
        TransClosed(ss[i].body, env', c + |xs|);
      }
    }
  }

  lemma {:induction false} EraseClosed(t: Term, c: nat)
    requires Closed(t, c)
    ensures Closed(Erase(t), c)
  {
    if t.Node? {
      forall i | 0 <= i < |t.kids| ensures Closed(Erase(t.kids[i].body), c + t.kids[i].binds) {
        assert t.kids[i].body < t.kids[i];
        EraseClosed(t.kids[i].body, c + t.kids[i].binds);
      }
      EraseNode(t.op, t.kids);
    }
  }

  /** The erased meaning of a whole program. */
  function Meaning(e: Core): Term { Er(e, map[]) }

  lemma MeaningClosed(e: Core)
    ensures Closed(Meaning(e), 0)
  {
    TransClosed(e, map[], 0);
    EraseClosed(Trans(e, map[]), 0);
  }
}
