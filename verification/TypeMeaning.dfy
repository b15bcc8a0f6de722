/**
  What the types in a term mean. Under every interpretation of type formers and
  type variables, type-level beta gives the body with its variable standing for
  the meaning of the argument, exactly when no type abstraction in the body
  captures a variable of the argument and none that binds the variable again has
  it in its kind. Floating an argument under a type abstraction is right exactly
  when its types do not mention the variable.
 */
module TypeMeaning {
  import opened CoreIR
  import opened Rewrites
  import opened TypeRules

  /** An interpretation of type formers. */
  datatype Algebra<!V> = Algebra(con: Name -> V, app: (V, V) -> V, arrow: (V, V) -> V, none: V)

  function Means<V>(alg: Algebra<V>, env: Name -> V, t: Ty): V {
    match t
    case TyVar(a) => env(a)
    case TyCon(c) => alg.con(c)
    case TyApply(f, x) => alg.app(Means(alg, env, f), Means(alg, env, x))
    case TyArrow(f, x) => alg.arrow(Means(alg, env, f), Means(alg, env, x))
    case NoTy => alg.none
  }

  function Let<V>(env: Name -> V, a: Name, v: V): Name -> V { (x: Name) => if x == a then v else env(x) }

  /** A node with its types and subterms taken out. */
  function Frame(e: Core): Core {
    match e
    case Var(_, _) => e
    case Lam(x, _, _) => Lam(x, NoTy, Error)
    case App(_, _) => App(Error, Error)
    case TyApp(_, _) => TyApp(Error, NoTy)
    case TyLam(a, _, _) => TyLam(a, NoTy, Error)
    case Con(c, m, args) => Con(c, m, Blanks(|args|))
    case Case(_, alts) => Case(Error, seq(|alts|, i requires 0 <= i < |alts| => Alt(alts[i].pat, Error)))
    case Fix(f, _) => Fix(f, Error)
    case Pure(_) => Pure(Error)
    case Bind(_, x, d, _) => Bind(Error, x, d, Error)
    case Thunk(_) => Thunk(Error)
    case Force(_) => Force(Error)
    case Merge(_, _, ll, rl) => Merge(Error, Error, ll, rl)
    case PrimOp(p, k, eff, args) => PrimOp(p, k, eff, Blanks(|args|))
    case Lit(_) => e
    case Error => e
    case RecordLit(fs) => RecordLit(BlankFields(fs))
    case RecordProj(_, l) => RecordProj(Error, l)
    case RecordUpdate(_, fs) => RecordUpdate(Error, BlankFields(fs))
    case VariantLit(t, _) => VariantLit(t, Error)
  }

  function Blanks(k: nat): seq<Core> { seq(k, _ => Error) }

  function BlankFields(fs: seq<Field>): seq<Field> { seq(|fs|, i requires 0 <= i < |fs| => Field(fs[i].lbl, Error)) }

  /** `e'` is `e` but for its types, and each type of `e'` means in `env'` what
      the one in its place means in `env`, whatever the variables mean that type
      abstractions around it bind. */
  ghost predicate SameTyped<V(!new)>(alg: Algebra<V>, env: Name -> V, e: Core, env': Name -> V, e': Core)
    decreases e
  {
    && Frame(e) == Frame(e') && |Scopes(e)| == |Scopes(e')|
    && Means(alg, env, OwnType(e)) == Means(alg, env', OwnType(e'))
    && if e.TyLam? then forall v: V :: SameTyped(alg, Let(env, e.tyParam, v), e.body, Let(env', e.tyParam, v), e'.body)
       else forall i :: 0 <= i < |Scopes(e)| ==> SameTyped(alg, env, Scopes(e)[i].body, env', Scopes(e')[i].body)
  }

  // ---- Types alone ----

  lemma {:induction false} MeansSame<V>(alg: Algebra<V>, env: Name -> V, env': Name -> V, t: Ty)
    requires forall x :: InTy(x, t) ==> env(x) == env'(x)
    ensures Means(alg, env, t) == Means(alg, env', t)
  {
    match t
    case TyApply(f, x) => MeansSame(alg, env, env', f); MeansSame(alg, env, env', x);
    case TyArrow(f, x) => MeansSame(alg, env, env', f); MeansSame(alg, env, env', x);
    case TyVar(a) => assert InTy(a, t);
    case _ =>
  }

  /** Where `a` means what `ty` means elsewhere. */
  ghost predicate Stands<V(!new)>(alg: Algebra<V>, env: Name -> V, env': Name -> V, a: Name, ty: Ty, x: Name) {
    env'(x) == if x == a then Means(alg, env, ty) else env(x)
  }

  lemma {:induction false} SubstMeans<V(!new)>(alg: Algebra<V>, env: Name -> V, env': Name -> V, t: Ty, a: Name, ty: Ty)
    requires forall x :: InTy(x, t) ==> Stands(alg, env, env', a, ty, x)
    ensures Means(alg, env', t) == Means(alg, env, SubstTy(t, a, ty))
  {
    match t
    case TyApply(f, x) => SubstMeans(alg, env, env', f, a, ty); SubstMeans(alg, env, env', x, a, ty);
    case TyArrow(f, x) => SubstMeans(alg, env, env', f, a, ty); SubstMeans(alg, env, env', x, a, ty);
    case TyVar(b) => assert InTy(b, t) && Stands(alg, env, env', a, ty, b);
    case _ =>
  }

  // ---- Types in terms ----

  /** `x` occurs in a type of `e` and is not bound there. */
  predicate FreeTy(e: Core, x: Name) {
    || InTy(x, OwnType(e))
    || (if e.TyLam? then e.tyParam != x && FreeTy(e.body, x)
        else exists i :: 0 <= i < |Scopes(e)| && FreeTy(Scopes(e)[i].body, x))
  }

  /** A term means the same where its free type variables do. */
  lemma {:induction false} SelfTyped<V(!new)>(alg: Algebra<V>, env: Name -> V, env': Name -> V, e: Core)
    requires forall x :: FreeTy(e, x) ==> env(x) == env'(x)
    ensures SameTyped(alg, env, e, env', e)
    decreases e
  {
    hide Scopes, Frame, OwnType;
    MeansSame(alg, env, env', OwnType(e));
    if e.TyLam? {
      forall v: V ensures SameTyped(alg, Let(env, e.tyParam, v), e.body, Let(env', e.tyParam, v), e.body) {
        SelfTyped(alg, Let(env, e.tyParam, v), Let(env', e.tyParam, v), e.body);
      }
    } else {
      forall i | 0 <= i < |Scopes(e)| ensures SameTyped(alg, env, Scopes(e)[i].body, env', Scopes(e)[i].body) {
        SelfTyped(alg, env, env', Scopes(e)[i].body);
      }
    }
  }

  /** A type abstraction in `e` that binds a variable of `ty` has `a` below it. */
  predicate Captures(e: Core, a: Name, ty: Ty) {
    !e.Var? && !(e.TyLam? && e.tyParam == a) &&
    ((e.TyLam? && InTy(e.tyParam, ty) && TyLocal(e.body, a))
     || exists i :: 0 <= i < |Scopes(e)| && Captures(Scopes(e)[i].body, a, ty))
  }

  /** A type abstraction that binds `a` again has `a` in its kind, where it is
      not bound yet but not replaced either. */
  predicate KindMissed(e: Core, a: Name) {
    if e.TyLam? && e.tyParam == a then InTy(a, e.kind)
    else exists i :: 0 <= i < |Scopes(e)| && KindMissed(Scopes(e)[i].body, a)
  }

  /** What makes replacing `a` by `ty` in `e` go wrong. */
  predicate Spoils(e: Core, a: Name, ty: Ty) { Captures(e, a, ty) || (KindMissed(e, a) && ty != TyVar(a)) }

  lemma SubstFrame(e: Core, a: Name, ty: Ty)
    ensures Frame(SubstTyVarInCore(e, a, ty)) == Frame(e)
  {
    hide SubstTyVarInCore;
    match e
    case Case(_, alts) => FrameCase(e, a, ty);
    case RecordLit(fs) => FrameFields(e, a, ty);
    case RecordUpdate(_, fs) => FrameFields(e, a, ty);
    case _ => FrameOther(e, a, ty);
  }

  lemma FrameCase(e: Core, a: Name, ty: Ty)
    requires e.Case?
    ensures Frame(SubstTyVarInCore(e, a, ty)) == Frame(e)
  {
    RetypedCase(e, a, ty);
  }

  lemma FrameFields(e: Core, a: Name, ty: Ty)
    requires e.RecordLit? || e.RecordUpdate?
    ensures Frame(SubstTyVarInCore(e, a, ty)) == Frame(e)
  {
    var fs := if e.RecordLit? then e.fields else e.updates;
    assert BlankFields(SubstTyFields(fs, a, ty)) == BlankFields(fs);
  }

  lemma FrameOther(e: Core, a: Name, ty: Ty)
    requires !e.Case? && !e.RecordLit? && !e.RecordUpdate?
    ensures Frame(SubstTyVarInCore(e, a, ty)) == Frame(e)
  {
  }

  /** The substituted term means in `env` what the term means where `a` stands
      for the meaning of `ty`. */
  lemma {:induction false} SubstTyped<V(!new)>(alg: Algebra<V>, env: Name -> V, env': Name -> V, e: Core, a: Name, ty: Ty)
    requires !Spoils(e, a, ty) && forall x :: FreeTy(e, x) ==> Stands(alg, env, env', a, ty, x)
    ensures SameTyped(alg, env', e, env, SubstTyVarInCore(e, a, ty))
    decreases e
  {
    hide Scopes, Frame, OwnType, SubstTyVarInCore;
    var r := SubstTyVarInCore(e, a, ty);
    SubstFrame(e, a, ty);
    if e.TyLam? && e.tyParam == a {
      Rebound(e, a, ty);
      forall x | FreeTy(e, x) ensures env'(x) == env(x) {
        assert Stands(alg, env, env', a, ty, x);
        if x == a { KindOf(e); }
      }
      SelfTyped(alg, env', env, e);
    } else if e.Var? {
      Untouched(e, a, ty);
      SelfTyped(alg, env', env, e);
    } else {
      SubstTyScopes(e, a, ty);
      SubstOwnType(e, a, ty);
      SubstMeans(alg, env, env', OwnType(e), a, ty);
      if e.TyLam? {
        TyLamBody(e, a, ty);
        forall v: V ensures SameTyped(alg, Let(env', e.tyParam, v), e.body, Let(env, e.tyParam, v), r.body) {
          UnderTyLam(alg, env, env', e, a, ty, v);
          SubstTyped(alg, Let(env, e.tyParam, v), Let(env', e.tyParam, v), e.body, a, ty);
        }
      } else {
        forall i | 0 <= i < |Scopes(e)| ensures SameTyped(alg, env', Scopes(e)[i].body, env, Scopes(r)[i].body) {
          SubstTyped(alg, env, env', Scopes(e)[i].body, a, ty);
        }
      }
    }
  }

  lemma Rebound(e: Core, a: Name, ty: Ty)
    requires e.TyLam? && e.tyParam == a
    ensures SubstTyVarInCore(e, a, ty) == e
  {
  }

  lemma Untouched(e: Core, a: Name, ty: Ty)
    requires e.Var?
    ensures SubstTyVarInCore(e, a, ty) == e && !FreeTy(e, a)
  {
  }

  lemma KindOf(e: Core)
    requires e.TyLam? && FreeTy(e, e.tyParam)
    ensures InTy(e.tyParam, e.kind)
  {
  }

  lemma TyLamBody(e: Core, a: Name, ty: Ty)
    requires e.TyLam? && e.tyParam != a
    ensures var r := SubstTyVarInCore(e, a, ty); r.TyLam? && r.tyParam == e.tyParam && r.body == SubstTyVarInCore(e.body, a, ty)
    ensures |Scopes(e)| == 1 && Scopes(e)[0].body == e.body
  {
  }

  lemma UnderTyLam<V(!new)>(alg: Algebra<V>, env: Name -> V, env': Name -> V, e: Core, a: Name, ty: Ty, v: V)
    requires e.TyLam? && e.tyParam != a && !Spoils(e, a, ty)
    requires forall x :: FreeTy(e, x) ==> Stands(alg, env, env', a, ty, x)
    ensures !Spoils(e.body, a, ty)
    ensures forall x :: FreeTy(e.body, x) ==> Stands(alg, Let(env, e.tyParam, v), Let(env', e.tyParam, v), a, ty, x)
  {
    var b, env1 := e.tyParam, Let(env, e.tyParam, v);
    assert Scopes(e)[0].body == e.body;
    forall x | FreeTy(e.body, x) ensures Stands(alg, env1, Let(env', b, v), a, ty, x) {
      if x != b {
        assert Stands(alg, env, env', a, ty, x);
        if x == a {
          FreeOrMissed(e.body, a);
          if TyLocal(e.body, a) { MeansSame(alg, env, env1, ty); }
        }
      }
    }
  }

  lemma {:induction false} FreeOrMissed(e: Core, a: Name)
    requires FreeTy(e, a)
    ensures TyLocal(e, a) || KindMissed(e, a)
  {
    if e.TyLam? {
      assert Scopes(e)[0].body == e.body;
      if !InTy(a, e.kind) { FreeOrMissed(e.body, a); }
    } else if !InTy(a, OwnType(e)) {
      var i :| 0 <= i < |Scopes(e)| && FreeTy(Scopes(e)[i].body, a);
      FreeOrMissed(Scopes(e)[i].body, a);
    }
  }

  // ---- The other direction ----

  /** Types that mean themselves: nothing is equal that need not be. */
  function Syntax(): Algebra<Ty> { Algebra((c: Name) => TyCon(c), (f, x) => TyApply(f, x), (f, x) => TyArrow(f, x), NoTy) }

  lemma {:induction false} MeansPins(env: Name -> Ty, env': Name -> Ty, t: Ty, a: Name)
    requires Means(Syntax(), env, t) == Means(Syntax(), env', t) && InTy(a, t)
    ensures env(a) == env'(a)
  {
    match t
    case TyApply(f, x) => if InTy(a, f) { MeansPins(env, env', f, a); } else { MeansPins(env, env', x, a); }
    case TyArrow(f, x) => if InTy(a, f) { MeansPins(env, env', f, a); } else { MeansPins(env, env', x, a); }
    case _ =>
  }

  lemma {:induction false} SubstPins(env: Name -> Ty, env': Name -> Ty, t: Ty, a: Name, ty: Ty)
    requires Means(Syntax(), env', t) == Means(Syntax(), env, SubstTy(t, a, ty)) && InTy(a, t)
    ensures env'(a) == Means(Syntax(), env, ty)
  {
    match t
    case TyApply(f, x) => if InTy(a, f) { SubstPins(env, env', f, a, ty); } else { SubstPins(env, env', x, a, ty); }
    case TyArrow(f, x) => if InTy(a, f) { SubstPins(env, env', f, a, ty); } else { SubstPins(env, env', x, a, ty); }
    case _ =>
  }

  /** If the substituted term means the right thing, then where `a` is replaced
      it stands for the meaning of `ty`. */
  lemma {:induction false} LocalPins(env: Name -> Ty, env': Name -> Ty, e: Core, a: Name, ty: Ty)
    requires TyLocal(e, a) && SameTyped(Syntax(), env', e, env, SubstTyVarInCore(e, a, ty))
    ensures env'(a) == Means(Syntax(), env, ty)
    decreases e
  {
    hide Frame, SubstTyVarInCore, OwnType, Means;
    var r := SubstTyVarInCore(e, a, ty);
    SubstTyScopes(e, a, ty);
    SubstOwnType(e, a, ty);
    if InTy(a, OwnType(e)) {
      SubstPins(env, env', OwnType(e), a, ty);
    } else {
      var i :| 0 <= i < |Scopes(e)| && TyLocal(Scopes(e)[i].body, a);
      if e.TyLam? {
        TyLamBody(e, a, ty);
        var b := e.tyParam;
        assert SameTyped(Syntax(), Let(env', b, env(b)), e.body, Let(env, b, env(b)), r.body);
        LocalPins(Let(env, b, env(b)), Let(env', b, env(b)), e.body, a, ty);
        MeansSame(Syntax(), env, Let(env, b, env(b)), ty);
      } else {
        LocalPins(env, env', Scopes(e)[i].body, a, ty);
      }
    }
  }

  lemma {:induction false} MissedPins(env: Name -> Ty, env': Name -> Ty, e: Core, a: Name, ty: Ty)
    requires KindMissed(e, a) && SameTyped(Syntax(), env', e, env, SubstTyVarInCore(e, a, ty))
    ensures env'(a) == env(a)
    decreases e
  {
    hide Frame, SubstTyVarInCore, Means;
    if e.TyLam? && e.tyParam == a {
      Rebound(e, a, ty);
      MeansPins(env', env, e.kind, a);
    } else {
      var i :| 0 <= i < |Scopes(e)| && KindMissed(Scopes(e)[i].body, a);
      SubstTyScopes(e, a, ty);
      if e.TyLam? {
        TyLamBody(e, a, ty);
        var b := e.tyParam;
        assert SameTyped(Syntax(), Let(env', b, env(b)), e.body, Let(env, b, env(b)), SubstTyVarInCore(e, a, ty).body);
        MissedPins(Let(env, b, env(b)), Let(env', b, env(b)), e.body, a, ty);
      } else {
        MissedPins(env, env', Scopes(e)[i].body, a, ty);
      }
    }
  }

  /** Where a variable is captured, the result is wrong whatever the variables mean. */
  lemma {:induction false} CapturedFails(env: Name -> Ty, env': Name -> Ty, e: Core, a: Name, ty: Ty)
    requires Captures(e, a, ty)
    ensures !SameTyped(Syntax(), env', e, env, SubstTyVarInCore(e, a, ty))
    decreases e
  {
    hide Frame, SubstTyVarInCore, OwnType, Means;
    var r := SubstTyVarInCore(e, a, ty);
    SubstTyScopes(e, a, ty);
    if SameTyped(Syntax(), env', e, env, r) {
      if e.TyLam? {
        TyLamBody(e, a, ty);
        if InTy(e.tyParam, ty) && TyLocal(e.body, a) {
          CapturedHere(env, env', e, a, ty, r);
        } else {
          var v := NoTy;
          assert SameTyped(Syntax(), Let(env', e.tyParam, v), e.body, Let(env, e.tyParam, v), r.body);
          CapturedFails(Let(env, e.tyParam, v), Let(env', e.tyParam, v), e.body, a, ty);
        }
      } else {
        var i :| 0 <= i < |Scopes(e)| && Captures(Scopes(e)[i].body, a, ty);
        CapturedFails(env, env', Scopes(e)[i].body, a, ty);
      }
    }
  }

  lemma CapturedHere(env: Name -> Ty, env': Name -> Ty, e: Core, a: Name, ty: Ty, r: Core)
    requires e.TyLam? && e.tyParam != a && InTy(e.tyParam, ty) && TyLocal(e.body, a)
    requires r == SubstTyVarInCore(e, a, ty) && r.TyLam? && r.body == SubstTyVarInCore(e.body, a, ty)
    ensures !SameTyped(Syntax(), env', e, env, r)
  {
    hide Frame, SubstTyVarInCore, OwnType, Means;
    var b, v, w := e.tyParam, NoTy, TyVar("");
    if SameTyped(Syntax(), env', e, env, r) {
      assert SameTyped(Syntax(), Let(env', b, v), e.body, Let(env, b, v), r.body);
      assert SameTyped(Syntax(), Let(env', b, w), e.body, Let(env, b, w), r.body);
      LocalPins(Let(env, b, v), Let(env', b, v), e.body, a, ty);
      LocalPins(Let(env, b, w), Let(env', b, w), e.body, a, ty);
      MeansPins(Let(env, b, v), Let(env, b, w), ty, b);
    }
  }

  /** Some meaning of variables tells a type from the variable `a`, unless it is that. */
  lemma Differs(a: Name, ty: Ty) returns (env: Name -> Ty)
    requires ty != TyVar(a)
    ensures Means(Syntax(), env, ty) != env(a)
  {
    if ty.TyVar? {
      env := (x: Name) => if x == a then NoTy else TyVar("");
    } else {
      env := (x: Name) => TyVar("");
    }
  }

  // ---- The two rewrites ----

  /** Type-level beta, under every interpretation. */
  lemma TyAppBetaMeans<V(!new)>(c: Core, n: nat, alg: Algebra<V>, env: Name -> V)
    requires c.TyApp? && c.expr.TyLam? && !Spoils(c.expr.body, c.expr.tyParam, c.tyArg)
    ensures SameTyped(alg, Let(env, c.expr.tyParam, Means(alg, env, c.tyArg)), c.expr.body, env, TyAppBeta(c, n).e)
  {
    hide Spoils, FreeTy, SubstTyVarInCore, SameTyped;
    SubstTyped(alg, env, Let(env, c.expr.tyParam, Means(alg, env, c.tyArg)), c.expr.body, c.expr.tyParam, c.tyArg);
  }

  /** And exactly when it is right. */
  lemma TyAppBetaMeansIff(c: Core, n: nat)
    requires c.TyApp? && c.expr.TyLam?
    ensures !Spoils(c.expr.body, c.expr.tyParam, c.tyArg) <==> forall env: Name -> Ty ::
      SameTyped(Syntax(), Let(env, c.expr.tyParam, Means(Syntax(), env, c.tyArg)), c.expr.body, env, TyAppBeta(c, n).e)
  {
    hide Captures, KindMissed, FreeTy, SubstTyVarInCore, SameTyped, Means;
    var b, a, ty := c.expr.body, c.expr.tyParam, c.tyArg;
    if !Spoils(b, a, ty) {
      forall env: Name -> Ty ensures SameTyped(Syntax(), Let(env, a, Means(Syntax(), env, ty)), b, env, TyAppBeta(c, n).e) {
        TyAppBetaMeans(c, n, Syntax(), env);
      }
    } else if Captures(b, a, ty) {
      var env := Differs(a, NoTy);
      CapturedFails(env, Let(env, a, Means(Syntax(), env, ty)), b, a, ty);
      assert !SameTyped(Syntax(), Let(env, a, Means(Syntax(), env, ty)), b, env, TyAppBeta(c, n).e);
    } else {
      var env := Differs(a, ty);
      var env' := Let(env, a, Means(Syntax(), env, ty));
      if SameTyped(Syntax(), env', b, env, TyAppBeta(c, n).e) { MissedPins(env, env', b, a, ty); }
    }
  }

  lemma {:induction false} SelfPins(env: Name -> Ty, env': Name -> Ty, e: Core, a: Name)
    requires FreeTy(e, a) && SameTyped(Syntax(), env, e, env', e)
    ensures env(a) == env'(a)
    decreases e
  {
    hide Frame, OwnType, Means, Scopes;
    if InTy(a, OwnType(e)) {
      MeansPins(env, env', OwnType(e), a);
    } else if e.TyLam? {
      var b := e.tyParam;
      assert SameTyped(Syntax(), Let(env, b, NoTy), e.body, Let(env', b, NoTy), e.body);
      SelfPins(Let(env, b, NoTy), Let(env', b, NoTy), e.body, a);
    } else {
      var i :| 0 <= i < |Scopes(e)| && FreeTy(Scopes(e)[i].body, a);
      SelfPins(env, env', Scopes(e)[i].body, a);
    }
  }

  /** Floating moves an argument under a type abstraction. Its types mean there
      what they meant outside exactly when they do not mention the variable. */
  lemma FloatMeansIff(c: Core, n: nat)
    requires c.App? && c.fun.TyLam?
    ensures AppTyLamFloat(c, n).e == TyLam(c.fun.tyParam, c.fun.kind, App(c.fun.body, c.arg))
    ensures !FreeTy(c.arg, c.fun.tyParam) <==> forall env: Name -> Ty, v: Ty ::
      SameTyped(Syntax(), env, c.arg, Let(env, c.fun.tyParam, v), AppTyLamFloat(c, n).e.body.arg)
  {
    hide FreeTy, SameTyped, Means;
    var a, x := c.fun.tyParam, c.arg;
    if FreeTy(x, a) {
      var env: Name -> Ty := (_: Name) => NoTy;
      if SameTyped(Syntax(), env, x, Let(env, a, TyVar("")), x) { SelfPins(env, Let(env, a, TyVar("")), x, a); }
    } else {
      forall env: Name -> Ty, v: Ty ensures SameTyped(Syntax(), env, x, Let(env, a, v), x) { SelfTyped(Syntax(), env, Let(env, a, v), x); }
    }
  }
}
