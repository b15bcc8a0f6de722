/**
  The rewrites on types leave the erased term alone, and substitution for a
  type variable stops at a type abstraction that binds it again.
 */
module TypeRules {
  import opened CoreIR
  import opened Translate
  import opened Hygiene
  import opened Eval
  import opened EraseFacts
  import opened Contract
  import opened NeatTerms
  import opened Rewrites
  import opened RewriteRight

  // ---- Types inside a term do not matter once erased ----

  /** `r` is `c` with other types in it. */
  ghost predicate Retyped(c: Core, a: Name, ty: Ty, r: Core)
    requires !c.Var?
  {
    var ss, rs := Scopes(c), Scopes(r);
    && !r.Var? && (c.TyApp? <==> r.TyApp?) && (c.TyLam? <==> r.TyLam?) && ViewOf(r) == ViewOf(c)
    && (!c.TyApp? && !c.TyLam? ==> EraseOp(OpOf(r)) == EraseOp(OpOf(c)))
    && |rs| == |ss|
    && forall i :: 0 <= i < |ss| ==>
      && rs[i].names == ss[i].names
      && rs[i].body == (if c.TyLam? && c.tyParam == a then ss[i].body else SubstTyVarInCore(ss[i].body, a, ty))
  }

  lemma SubstTyScopes(c: Core, a: Name, ty: Ty)
    requires !c.Var?
    ensures Retyped(c, a, ty, SubstTyVarInCore(c, a, ty))
  {
    if c.Case? {
      RetypedCase(c, a, ty);
    } else if c.RecordLit? || c.RecordUpdate? {
      RetypedFields(c, a, ty);
    } else if c.Con? || c.PrimOp? {
      RetypedArgs(c, a, ty);
    } else if c.Lam? || c.TyLam? || c.TyApp? || c.Fix? || c.Bind? {
      RetypedBinders(c, a, ty);
    } else {
      RetypedFixed(c, a, ty);
    }
  }

  lemma RetypedBinders(c: Core, a: Name, ty: Ty)
    requires c.Lam? || c.TyLam? || c.TyApp? || c.Fix? || c.Bind?
    ensures Retyped(c, a, ty, SubstTyVarInCore(c, a, ty))
  {
  }

  lemma RetypedArgs(c: Core, a: Name, ty: Ty)
    requires c.Con? || c.PrimOp?
    ensures Retyped(c, a, ty, SubstTyVarInCore(c, a, ty))
  {
  }

  lemma RetypedFixed(c: Core, a: Name, ty: Ty)
    requires c.App? || c.Pure? || c.Thunk? || c.Force? || c.Merge? || c.Lit? || c.Error? || c.RecordProj? || c.VariantLit?
    ensures Retyped(c, a, ty, SubstTyVarInCore(c, a, ty))
  {
  }

  lemma RetypedCase(c: Core, a: Name, ty: Ty)
    requires c.Case?
    ensures var r := SubstTyVarInCore(c, a, ty); Retyped(c, a, ty, r)
    ensures var r := SubstTyVarInCore(c, a, ty);
      r.Case? && |r.alts| == |c.alts| && forall i :: 0 <= i < |c.alts| ==> r.alts[i].pat == c.alts[i].pat
  {
    var r := SubstTyVarInCore(c, a, ty);
    CaseScopes(c);
    CaseScopes(r);
    assert r.alts == SubstTyAlts(c.alts, a, ty);
    forall i | 0 <= i < |c.alts|
      ensures r.alts[i].pat == c.alts[i].pat && Scopes(r)[i + 1].body == SubstTyVarInCore(Scopes(c)[i + 1].body, a, ty)
    {}
    assert OpOf(r).pats == OpOf(c).pats && NamesOf(r.alts) == NamesOf(c.alts);
  }

  lemma FieldsRetyped(fs: seq<Field>, a: Name, ty: Ty)
    ensures Labels(SubstTyFields(fs, a, ty)) == Labels(fs)
    ensures forall i :: 0 <= i < |fs| ==> SubstTyFields(fs, a, ty)[i].value == SubstTyVarInCore(fs[i].value, a, ty)
  {
    hide SubstTyVarInCore;
  }

  lemma RetypedFields(c: Core, a: Name, ty: Ty)
    requires c.RecordLit? || c.RecordUpdate?
    ensures Retyped(c, a, ty, SubstTyVarInCore(c, a, ty))
  {
    if c.RecordLit? {
      var r := SubstTyVarInCore(c, a, ty);
      FieldsRetyped(c.fields, a, ty);
      assert r.fields == SubstTyFields(c.fields, a, ty);
    } else {
      RetypedUpdate(c, a, ty);
    }
  }

  lemma RetypedUpdate(c: Core, a: Name, ty: Ty)
    requires c.RecordUpdate?
    ensures Retyped(c, a, ty, SubstTyVarInCore(c, a, ty))
  {
    hide Scopes, SubstTyFields;
    var r := SubstTyVarInCore(c, a, ty);
    FieldsRetyped(c.updates, a, ty);
    assert r.updates == SubstTyFields(c.updates, a, ty);
    UpdateScopes(c);
    UpdateScopes(r);
  }

  lemma {:induction false} SubstTyErased(c: Core, a: Name, ty: Ty, env: Env)
    ensures Er(SubstTyVarInCore(c, a, ty), env) == Er(c, env)
  {
    hide Er, Scopes;
    if !c.Var? {
      var r := SubstTyVarInCore(c, a, ty);
      SubstTyScopes(c, a, ty);
      var ss, rs := Scopes(c), Scopes(r);
      forall i | 0 <= i < |ss| ensures ErKid(rs[i], env) == ErKid(ss[i], env) {
        SubstTyErased(ss[i].body, a, ty, Extend(env, ss[i].names));
      }
      if c.TyApp? {
        ErTypes(c, env);
        ErTypes(r, env);
        SubstTyErased(c.expr, a, ty, env);
      } else if c.TyLam? {
        ErTypes(c, env);
        ErTypes(r, env);
        if c.tyParam != a { SubstTyErased(c.body, a, ty, env); }
      } else {
        ErNode(c, env);
        ErNode(r, env);
        assert ErKids(r, env) == ErKids(c, env);
      }
    }
  }

  lemma {:induction false} SubstTyNeat(c: Core, a: Name, ty: Ty, n: nat, avoid: Avoid)
    requires Hygienic(c, n, avoid)
    ensures Hygienic(SubstTyVarInCore(c, a, ty), n, avoid)
  {
    hide Scopes;
    if !c.Var? {
      var r := SubstTyVarInCore(c, a, ty);
      SubstTyScopes(c, a, ty);
      var ss, rs := Scopes(c), Scopes(r);
      forall i | 0 <= i < |ss| ensures Hygienic(rs[i].body, n, avoid) && AllOlder(rs[i].names, n) {
        SubstTyNeat(ss[i].body, a, ty, n, avoid);
      }
      if c.Case? { RetypedCase(c, a, ty); }
    }
  }

  // ---- Which occurrences are replaced ----

  predicate InTy(a: Name, t: Ty) {
    match t
    case TyVar(b) => b == a
    case TyApply(f, x) => InTy(a, f) || InTy(a, x)
    case TyArrow(f, x) => InTy(a, f) || InTy(a, x)
    case _ => false
  }

  /** The type a node itself carries. */
  function OwnType(c: Core): Ty {
    match c
    case Lam(_, t, _) => t
    case TyApp(_, t) => t
    case TyLam(_, k, _) => k
    case _ => NoTy
  }

  /** `a` occurs in a type of `c`, outside the scope of every TyLam binding it. */
  predicate TyLocal(c: Core, a: Name) {
    !c.Var? && !(c.TyLam? && c.tyParam == a)
    && (InTy(a, OwnType(c)) || exists i :: 0 <= i < |Scopes(c)| && TyLocal(Scopes(c)[i].body, a))
  }

  lemma {:induction false} SubstTyAbsent(t: Ty, a: Name, ty: Ty)
    requires !InTy(a, t)
    ensures SubstTy(t, a, ty) == t
  {
    match t
    case TyApply(f, x) => SubstTyAbsent(f, a, ty); SubstTyAbsent(x, a, ty);
    case TyArrow(f, x) => SubstTyAbsent(f, a, ty); SubstTyAbsent(x, a, ty);
    case _ =>
  }

  lemma {:induction false} SubstTyIn(t: Ty, a: Name, ty: Ty, b: Name)
    ensures InTy(b, SubstTy(t, a, ty)) <==> (InTy(b, t) && b != a) || (InTy(a, t) && InTy(b, ty))
  {
    match t
    case TyApply(f, x) => SubstTyIn(f, a, ty, b); SubstTyIn(x, a, ty, b);
    case TyArrow(f, x) => SubstTyIn(f, a, ty, b); SubstTyIn(x, a, ty, b);
    case _ =>
  }

  lemma SameArgs(c: Core, es: seq<Core>, a: Name, ty: Ty)
    requires (c.Con? || c.PrimOp?) && es == c.args
    requires forall i :: 0 <= i < |Scopes(c)| ==> SubstTyVarInCore(Scopes(c)[i].body, a, ty) == Scopes(c)[i].body
    ensures SubstTyAll(es, a, ty) == es
  {
    hide SubstTyVarInCore;
    forall i | 0 <= i < |es| ensures SubstTyAll(es, a, ty)[i] == es[i] { assert Scopes(c)[i].body == es[i]; }
  }

  lemma SameAlts(c: Core, a: Name, ty: Ty)
    requires c.Case?
    requires forall i :: 0 <= i < |Scopes(c)| ==> SubstTyVarInCore(Scopes(c)[i].body, a, ty) == Scopes(c)[i].body
    ensures SubstTyVarInCore(c.scrutinee, a, ty) == c.scrutinee && SubstTyAlts(c.alts, a, ty) == c.alts
  {
    hide SubstTyVarInCore, Scopes;
    CaseScopes(c);
    var ss := Scopes(c);
    assert ss[0].body == c.scrutinee;
    forall i | 0 <= i < |c.alts| ensures SubstTyAlts(c.alts, a, ty)[i] == c.alts[i] { assert ss[i + 1].body == c.alts[i].body; }
  }

  lemma SameFields(c: Core, fs: seq<Field>, k: nat, a: Name, ty: Ty)
    requires (c.RecordLit? && fs == c.fields && k == 0) || (c.RecordUpdate? && fs == c.updates && k == 1)
    requires forall i :: 0 <= i < |Scopes(c)| ==> SubstTyVarInCore(Scopes(c)[i].body, a, ty) == Scopes(c)[i].body
    ensures SubstTyFields(fs, a, ty) == fs
  {
    hide SubstTyVarInCore, Scopes;
    if c.RecordLit? { RecordScopes(c); } else { UpdateScopes(c); }
    var ss := Scopes(c);
    forall i | 0 <= i < |fs| ensures SubstTyFields(fs, a, ty)[i] == fs[i] { assert ss[i + k].body == fs[i].value; }
  }

  /** A node is its label, its own type and its children. */
  lemma SameNode(c: Core, a: Name, ty: Ty)
    requires !c.Var? && SubstTy(OwnType(c), a, ty) == OwnType(c)
    requires forall i :: 0 <= i < |Scopes(c)| ==> SubstTyVarInCore(Scopes(c)[i].body, a, ty) == Scopes(c)[i].body
    ensures SubstTyVarInCore(c, a, ty) == c
  {
    var ss := Scopes(c);
    match c
    case Con(_, _, es) => SameArgs(c, es, a, ty);
    case PrimOp(_, _, _, es) => SameArgs(c, es, a, ty);
    case Case(s, alts) => SameAlts(c, a, ty);
    case RecordLit(fs) => SameFields(c, fs, 0, a, ty);
    case RecordUpdate(r, fs) => SameFields(c, fs, 1, a, ty); assert ss[0].body == r;
    case App(f, x) => assert ss[0].body == f && ss[1].body == x;
    case Merge(l, r, _, _) => assert ss[0].body == l && ss[1].body == r;
    case Bind(k, _, _, b) => assert ss[0].body == k && ss[1].body == b;
    case Lam(_, _, b) => assert ss[0].body == b;
    case TyApp(x, _) => assert ss[0].body == x;
    case TyLam(_, _, b) => assert ss[0].body == b;
    case Fix(_, b) => assert ss[0].body == b;
    case Pure(x) => assert ss[0].body == x;
    case Thunk(x) => assert ss[0].body == x;
    case Force(x) => assert ss[0].body == x;
    case RecordProj(r, _) => assert ss[0].body == r;
    case VariantLit(_, x) => assert ss[0].body == x;
    case _ =>
  }

  /** A term in which the variable is not free is left as it is. */
  lemma {:induction false} SubstTyUntouched(c: Core, a: Name, ty: Ty)
    requires !TyLocal(c, a)
    ensures SubstTyVarInCore(c, a, ty) == c
  {
    hide Scopes;
    if !c.Var? && !(c.TyLam? && c.tyParam == a) {
      SubstTyAbsent(OwnType(c), a, ty);
      var ss := Scopes(c);
      forall i | 0 <= i < |ss| ensures SubstTyVarInCore(ss[i].body, a, ty) == ss[i].body {
        SubstTyUntouched(ss[i].body, a, ty);
      }
      SameNode(c, a, ty);
    }
  }

  lemma SubstOwnType(c: Core, a: Name, ty: Ty)
    requires !c.Var? && !(c.TyLam? && c.tyParam == a)
    ensures var r := SubstTyVarInCore(c, a, ty);
      OwnType(r) == SubstTy(OwnType(c), a, ty) && (c.TyLam? ==> r.TyLam? && r.tyParam == c.tyParam)
  {
  }

  /** Every free occurrence is replaced: afterwards the variable is free only
      if the replacement brings it in. */
  lemma {:induction false} SubstTyGone(c: Core, a: Name, ty: Ty)
    requires !InTy(a, ty)
    ensures !TyLocal(SubstTyVarInCore(c, a, ty), a)
  {
    hide Scopes;
    if !c.Var? && !(c.TyLam? && c.tyParam == a) {
      var r := SubstTyVarInCore(c, a, ty);
      SubstTyScopes(c, a, ty);
      SubstOwnType(c, a, ty);
      SubstTyIn(OwnType(c), a, ty, a);
      var ss, rs := Scopes(c), Scopes(r);
      forall i | 0 <= i < |ss| ensures !TyLocal(rs[i].body, a) { SubstTyGone(ss[i].body, a, ty); }
    }
  }

  // ---- The two rewrites ----

  /** Neither rewrite changes the erased term, whatever the term. */
  lemma TyAppBetaErased(c: Core, n: nat, env: Env)
    ensures Er(TyAppBeta(c, n).e, env) == Er(c, env)
  {
    hide Er, SubstTyVarInCore;
    if TyAppBeta(c, n).fired {
      var t := c.expr;
      SubstTyErased(t.body, t.tyParam, c.tyArg, env);
      ErTypes(c, env);
      ErTypes(t, env);
    }
  }

  lemma AppTyLamFloatErased(c: Core, n: nat, env: Env)
    ensures Er(AppTyLamFloat(c, n).e, env) == Er(c, env)
  {
    hide Er;
    var o := AppTyLamFloat(c, n);
    if o.fired {
      ErApp(c, env);
      ErTypes(c.fun, env);
      ErTypes(o.e, env);
      ErApp(o.e.body, env);
    }
  }

  lemma TyAppBetaRight(c: Core, n: nat, q: View -> bool)
    requires Neat(c, n, q) && Stable(q, n)
    ensures Right1(c, n, q, TyAppBeta(c, n))
  {
    hide Er, Hygienic, SubstTyVarInCore, Stable, Contracts;
    var o := TyAppBeta(c, n);
    if o.fired {
      var t := c.expr;
      NeatPlain(c, n, q);
      assert Kids(c) == [t];
      assert Neat(Kids(c)[0], n, q);
      NeatPlain(t, n, q);
      assert Kids(t) == [t.body];
      assert Neat(Kids(t)[0], n, q);
      forall ps: set<Name> ensures Hygienic(o.e, n, Avoid(ps, q)) { SubstTyNeat(t.body, t.tyParam, c.tyArg, n, Avoid(ps, q)); }
      forall env ensures SameOrContracts(Er(c, env), Er(o.e, env)) { TyAppBetaErased(c, n, env); }
    } else {
      KeptRight(c, n, q);
    }
  }

  lemma AppTyLamFloatRight(c: Core, n: nat, q: View -> bool)
    requires Neat(c, n, q) && Stable(q, n)
    ensures Right1(c, n, q, AppTyLamFloat(c, n))
  {
    hide Er, Neat, Stable, Contracts;
    var o := AppTyLamFloat(c, n);
    if o.fired {
      var t := c.fun;
      NeatPlain(c, n, q);
      assert Kids(c) == [t, c.arg];
      assert Neat(Kids(c)[0], n, q) && Neat(Kids(c)[1], n, q);
      NeatPlain(t, n, q);
      assert Kids(t) == [t.body];
      assert Neat(Kids(t)[0], n, q);
      OtherOk(q, n);
      NeatPlain(o.e, n, q);
      NeatPlain(o.e.body, n, q);
      assert Kids(o.e.body) == [t.body, c.arg];
      assert Kids(o.e) == [o.e.body];
      forall env ensures SameOrContracts(Er(c, env), Er(o.e, env)) { AppTyLamFloatErased(c, n, env); }
    } else {
      KeptRight(c, n, q);
    }
  }
}
