/**
  From named Core to nameless terms. An environment says what each local name
  stands for; a name it does not mention is a free variable. Inside a binder
  the bound names stand for indices, counted from the last one bound.
 */
module Translate {
  import opened CoreIR
  import opened Nameless

  type Env = map<Name, Term>

  function ShapeOf(p: Pattern): Shape {
    match p
    case PVar(_) => SVar
    case PWild => SWild
    case PCon(c, m, args) => SCon(c, m, seq(|args|, i requires 0 <= i < |args| => ShapeOf(args[i])))
    case PRecord(fs) => SRecord(seq(|fs|, i requires 0 <= i < |fs| =>
        assert fs[i].pat < fs[i]; SField(fs[i].lbl, ShapeOf(fs[i].pat))))
    case PLit(v) => SLit(v)
    case PLabel(l, y) => SLabel(l, y != "")
  }

  function Labels(fs: seq<Field>): seq<string> {
    seq(|fs|, i requires 0 <= i < |fs| => fs[i].lbl)
  }

  function ShapesOf(alts: seq<Alt>): seq<Shape> {
    seq(|alts|, i requires 0 <= i < |alts| => ShapeOf(alts[i].pat))
  }

  function OpOf(e: Core): Op
    requires !e.Var?
  {
    match e
    case Lam(_, ty, _) => OLam(ty)
    case App(_, _) => OApp
    case TyApp(_, ty) => OTyApp(ty)
    case TyLam(a, k, _) => OTyLam(a, k)
    case Con(c, m, _) => OCon(c, m)
    case Case(_, alts) => OCase(ShapesOf(alts))
    case Fix(_, _) => OFix
    case Pure(_) => OPure
    case Bind(_, _, d, _) => OBind(d)
    case Thunk(_) => OThunk
    case Force(_) => OForce
    case Merge(_, _, ll, rl) => OMerge(ll, rl)
    case PrimOp(p, n, eff, _) => OPrim(p, n, eff)
    case Lit(v) => OLit(v)
    case Error => OError
    case RecordLit(fs) => ORecord(Labels(fs))
    case RecordProj(_, l) => OProj(l)
    case RecordUpdate(_, fs) => OUpdate(Labels(fs))
    case VariantLit(t, _) => OVariant(t)
  }

  function Lookup(env: Env, x: Name): Term {
    if x in env then env[x] else Free(VarKey("", x))
  }

  /** The index of `x` among the names `xs`, the last one bound being 0. */
  function IndexOf(xs: seq<Name>, x: Name): (i: nat)
    requires x in xs
    ensures i < |xs| && xs[|xs| - 1 - i] == x
  {
    if xs[|xs| - 1] == x then 0 else 1 + IndexOf(xs[..|xs| - 1], x)
  }

  function Extend(env: Env, xs: seq<Name>): Env {
    map x | x in env.Keys + (set y | y in xs) ::
      if x in xs then Bound(IndexOf(xs, x)) else Shift(env[x], |xs|, 0)
  }

  function Trans(e: Core, env: Env): Term
    decreases e, 1
  {
    if e.Var? then
      if e.mod == "" then Lookup(env, e.name) else Free(VarKey(e.mod, e.name))
    else
      Node(OpOf(e), TransKids(e, Scopes(e), env))
  }

  function TransKids(e: Core, ss: seq<Under>, env: Env): seq<Kid>
    requires forall i :: 0 <= i < |ss| ==> ss[i].body < e
    decreases e, 0
  {
    seq(|ss|, i requires 0 <= i < |ss| => Kid(|ss[i].names|, Trans(ss[i].body, Extend(env, ss[i].names))))
  }

  // ---- How translation reacts to a change of environment ----

  lemma {:induction false} FlatHas<T>(ss: seq<seq<T>>, i: nat, x: T)
    requires i < |ss| && x in ss[i]
    ensures x in Flat(ss)
  {
    if i > 0 { FlatHas(ss[1..], i - 1, x); }
  }

  lemma {:induction false} PatternVarsBound(p: Pattern)
    ensures forall x :: x in PatternVars(p) || x in PayloadVars(p) ==> x in Bindings(p)
  {
    match p
    case PCon(_, _, args) =>
      var ss := seq(|args|, i requires 0 <= i < |args| => Bindings(args[i]));
      forall i, x | 0 <= i < |args| && (x in PatternVars(args[i]) || x in PayloadVars(args[i]))
        ensures x in Flat(ss)
      {
        PatternVarsBound(args[i]);
        FlatHas(ss, i, x);
      }
    case PRecord(fs) =>
      var ss := seq(|fs|, i requires 0 <= i < |fs| => Bindings(fs[i].pat));
      forall i, x | 0 <= i < |fs| && (x in PatternVars(fs[i].pat) || x in PayloadVars(fs[i].pat))
        ensures x in Flat(ss)
      {
        PatternVarsBound(fs[i].pat);
        FlatHas(ss, i, x);
      }
    case _ =>
  }

  lemma DroppedAreBound(e: Core, i: nat)
    requires i < |Scopes(e)|
    ensures forall x :: x in Scopes(e)[i].dropped ==> x in Scopes(e)[i].names
  {
    if e.Case? && i > 0 { PatternVarsBound(e.alts[i - 1].pat); }
  }

  /** `x` occurs unqualified in `e`, outside the scope of every binder of `x`. */
  predicate IsLocal(e: Core, x: Name) {
    if e.Var? then e.mod == "" && e.name == x
    else exists i :: 0 <= i < |Scopes(e)| && x !in Scopes(e)[i].names && IsLocal(Scopes(e)[i].body, x)
  }

  /** The free-variable traversal finds every local occurrence (and, for label
      payloads, possibly more). */
  lemma {:induction false} LocalsAreFree(e: Core, x: Name)
    requires IsLocal(e, x)
    ensures VarKey("", x) in FreeVars(e)
  {
    if !e.Var? {
      var i :| 0 <= i < |Scopes(e)| && x !in Scopes(e)[i].names && IsLocal(Scopes(e)[i].body, x);
      LocalsAreFree(Scopes(e)[i].body, x);
      DroppedAreBound(e, i);
      assert VarKey("", x) in FreeVars(Scopes(e)[i].body) - LocalKeys(Scopes(e)[i].dropped);
    }
  }

  lemma LocalInScope(e: Core, i: nat, x: Name)
    requires !e.Var? && i < |Scopes(e)|
    requires IsLocal(Scopes(e)[i].body, x) && x !in Scopes(e)[i].names
    ensures IsLocal(e, x)
  {
  }

  lemma LookupBound(env: Env, xs: seq<Name>, x: Name)
    requires x in xs
    ensures Lookup(Extend(env, xs), x) == Bound(IndexOf(xs, x))
  {
  }

  lemma LookupPassed(env: Env, xs: seq<Name>, x: Name)
    requires x !in xs
    ensures Lookup(Extend(env, xs), x) == Shift(Lookup(env, x), |xs|, 0)
  {
  }

  lemma ActBelow(i: nat, s: Sub, c: nat)
    requires i < c
    ensures Act(Bound(i), s, c) == Bound(i)
  {
  }

  lemma LookupUnder(env: Env, env': Env, xs: seq<Name>, s: Sub, c: nat, x: Name)
    requires x !in xs ==> Lookup(env', x) == Act(Lookup(env, x), s, c)
    ensures Lookup(Extend(env', xs), x) == Act(Lookup(Extend(env, xs), x), s, c + |xs|)
  {
    hide Lookup, Extend, Act, Shift, IndexOf;
    if x in xs {
      LookupBound(env, xs, x);
      LookupBound(env', xs, x);
      ActBelow(IndexOf(xs, x), s, c + |xs|);
    } else {
      LookupPassed(env, xs, x);
      LookupPassed(env', xs, x);
      ActShift(Lookup(env, x), s, c, |xs|, 0);
    }
  }

  /** Changing what every free local stands for by a substitution changes the
      whole translation by that substitution. */
  lemma {:induction false} TransAct(e: Core, env: Env, env': Env, s: Sub, c: nat)
    requires forall x :: IsLocal(e, x) ==> Lookup(env', x) == Act(Lookup(env, x), s, c)
    ensures Trans(e, env') == Act(Trans(e, env), s, c)
    decreases e, 1
  {
    if e.Var? {
      if e.mod == "" { assert IsLocal(e, e.name); }
    } else {
      TransActNode(e, env, env', s, c);
    }
  }

  lemma {:induction false} TransActNode(e: Core, env: Env, env': Env, s: Sub, c: nat)
    requires !e.Var? && forall x :: IsLocal(e, x) ==> Lookup(env', x) == Act(Lookup(env, x), s, c)
    ensures Trans(e, env') == Act(Trans(e, env), s, c)
    decreases e, 0, 1
  {
    hide Scopes, Lookup, Extend, IsLocal, TransKids, ActKids;
    var ss := Scopes(e);
    forall i | 0 <= i < |ss|
      ensures Trans(ss[i].body, Extend(env', ss[i].names))
           == Act(Trans(ss[i].body, Extend(env, ss[i].names)), s, c + |ss[i].names|)
    {
      TransActScope(e, i, env, env', s, c);
    }
    TransActKids(e, ss, env, env', s, c);
  }

  lemma TransActKids(e: Core, ss: seq<Under>, env: Env, env': Env, s: Sub, c: nat)
    requires forall i :: 0 <= i < |ss| ==> ss[i].body < e
    requires forall i :: 0 <= i < |ss| ==>
      Trans(ss[i].body, Extend(env', ss[i].names))
        == Act(Trans(ss[i].body, Extend(env, ss[i].names)), s, c + |ss[i].names|)
    ensures TransKids(e, ss, env') == ActKids(TransKids(e, ss, env), s, c)
  {
  }

  lemma {:induction false} TransActScope(e: Core, i: nat, env: Env, env': Env, s: Sub, c: nat)
    requires !e.Var? && i < |Scopes(e)|
    requires forall x :: IsLocal(e, x) ==> Lookup(env', x) == Act(Lookup(env, x), s, c)
    ensures var u := Scopes(e)[i];
      Trans(u.body, Extend(env', u.names)) == Act(Trans(u.body, Extend(env, u.names)), s, c + |u.names|)
    decreases e, 0, 0
  {
    hide Trans, Act, Scopes, Lookup, Extend, IsLocal;
    var u := Scopes(e)[i];
    forall x | IsLocal(u.body, x)
      ensures Lookup(Extend(env', u.names), x) == Act(Lookup(Extend(env, u.names), x), s, c + |u.names|)
    {
      if x !in u.names { LocalInScope(e, i, x); }
      LookupUnder(env, env', u.names, s, c, x);
    }
    TransAct(u.body, Extend(env, u.names), Extend(env', u.names), s, c + |u.names|);
  }

  /** Only the free locals of a term matter to its translation. */
  lemma TransAgree(e: Core, env: Env, env': Env)
    requires forall x :: IsLocal(e, x) ==> Lookup(env', x) == Lookup(env, x)
    ensures Trans(e, env') == Trans(e, env)
  {
    forall x | IsLocal(e, x) ensures Lookup(env', x) == Act(Lookup(env, x), Raise(0), 0) {
      RaiseIsShift(Lookup(env, x), 0, 0);
      ShiftZero(Lookup(env, x), 0);
    }
    TransAct(e, env, env', Raise(0), 0);
    RaiseIsShift(Trans(e, env), 0, 0);
    ShiftZero(Trans(e, env), 0);
  }

  /** Under binders that do not occur in it, a term is merely weakened. */
  lemma TransWeaken(e: Core, env: Env, xs: seq<Name>)
    requires forall x :: x in xs ==> !IsLocal(e, x)
    ensures Trans(e, Extend(env, xs)) == Shift(Trans(e, env), |xs|, 0)
  {
    forall x | IsLocal(e, x) ensures Lookup(Extend(env, xs), x) == Act(Lookup(env, x), Raise(|xs|), 0) {
      RaiseIsShift(Lookup(env, x), |xs|, 0);
    }
    TransAct(e, env, Extend(env, xs), Raise(|xs|), 0);
    RaiseIsShift(Trans(e, env), |xs|, 0);
  }

  lemma CaseScopes(e: Core)
    requires e.Case?
    ensures |Scopes(e)| == 1 + |e.alts| && Scopes(e)[0] == Plain(e.scrutinee)
    ensures forall i {:trigger Scopes(e)[i]} :: 0 < i <= |e.alts| ==>
      Scopes(e)[i].names == Bindings(e.alts[i - 1].pat) && Scopes(e)[i].body == e.alts[i - 1].body
  {
  }

  lemma UpdateScopes(e: Core)
    requires e.RecordUpdate?
    ensures |Scopes(e)| == 1 + |e.updates| && Scopes(e)[0] == Plain(e.record)
    ensures forall i {:trigger Scopes(e)[i]} :: 0 < i <= |e.updates| ==> Scopes(e)[i] == Plain(e.updates[i - 1].value)
  {
  }

  lemma RecordScopes(e: Core)
    requires e.RecordLit?
    ensures |Scopes(e)| == |e.fields|
    ensures forall i {:trigger Scopes(e)[i]} :: 0 <= i < |e.fields| ==> Scopes(e)[i] == Plain(e.fields[i].value)
  {
  }

  /** Translating in an environment is substituting it into the translation. */
  lemma TransIsGlobals(e: Core, env: Env)
    ensures Trans(e, env) == Act(Trans(e, map[]), Globals(env), 0)
  {
    forall x | IsLocal(e, x) ensures Lookup(env, x) == Act(Lookup(map[], x), Globals(env), 0) {
      ShiftZero(Lookup(env, x), 0);
    }
    TransAct(e, map[], env, Globals(env), 0);
  }

  /** What the names `xs` stand for once each index has been given a term. */
  function Assign(env: Env, xs: seq<Name>, us: seq<Term>): Env
    requires |us| == |xs|
  {
    map x | x in env.Keys + (set y | y in xs) :: if x in xs then us[IndexOf(xs, x)] else env[x]
  }

  /** Naming the bound variables and then filling them is naming their values. */
  lemma TransInst(e: Core, env: Env, xs: seq<Name>, us: seq<Term>)
    requires |us| == |xs|
    ensures Trans(e, Assign(env, xs, us)) == Instantiate(Trans(e, Extend(env, xs)), us)
  {
    forall x | IsLocal(e, x)
      ensures Lookup(Assign(env, xs, us), x) == Act(Lookup(Extend(env, xs), x), Inst(us), 0)
    {
      if x in xs {
        ShiftZero(us[IndexOf(xs, x)], 0);
      } else {
        InstShift(Lookup(env, x), us, |xs|, 0, 0);
        ShiftZero(Lookup(env, x), 0);
      }
    }
    TransAct(e, Extend(env, xs), Assign(env, xs, us), Inst(us), 0);
  }
}
