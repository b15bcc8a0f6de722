/**
  Constructor spines: the checker builds a constructor application as a bare
  constructor at the head of a chain of applications. Counting the arguments a
  constructor holds and those still due to it from the chain around it, every
  constructor that patterns name gets all its arguments, and every rewrite keeps
  it that way.
 */
module Spines {
  import opened CoreIR
  import opened Subst
  import opened Rewrites
  import opened DictRules
  import opened Optimizer

  datatype Sig = Sig(mod: string, arity: nat)

  type Sigs = map<string, Sig>

  /** `e` stands where `due` more arguments follow; each constructor in it with
      a signature gets at least as many arguments as that asks for. */
  ghost predicate Spined(sigs: Sigs, e: Core, due: nat) {
    match e
    case Var(_, _) => true
    case Lam(_, _, b) => Spined(sigs, b, 0)
    case App(f, a) => Spined(sigs, f, due + 1) && Spined(sigs, a, 0)
    case TyApp(x, _) => Spined(sigs, x, due)
    case TyLam(_, _, b) => Spined(sigs, b, 0)
    case Con(c, _, args) => (c in sigs ==> sigs[c].arity <= |args| + due) && AllSpined(sigs, args)
    case Case(s, alts) => Spined(sigs, s, 0) && AltsSpined(sigs, alts)
    case Fix(_, b) => Spined(sigs, b, 0)
    case Pure(x) => Spined(sigs, x, 0)
    case Bind(c, _, _, b) => Spined(sigs, c, 0) && Spined(sigs, b, 0)
    case Thunk(c) => Spined(sigs, c, 0)
    case Force(x) => Spined(sigs, x, 0)
    case Merge(l, r, _, _) => Spined(sigs, l, 0) && Spined(sigs, r, 0)
    case PrimOp(_, _, _, args) => AllSpined(sigs, args)
    case Lit(_) => true
    case Error => true
    case RecordLit(fs) => FieldsSpined(sigs, fs)
    case RecordProj(r, _) => Spined(sigs, r, 0)
    case RecordUpdate(r, fs) => Spined(sigs, r, 0) && FieldsSpined(sigs, fs)
    case VariantLit(_, v) => Spined(sigs, v, 0)
  }

  ghost predicate AllSpined(sigs: Sigs, es: seq<Core>) { forall i :: 0 <= i < |es| ==> Spined(sigs, es[i], 0) }

  ghost predicate AltsSpined(sigs: Sigs, alts: seq<Alt>) {
    forall i :: 0 <= i < |alts| ==> (assert alts[i].body < alts[i]; Spined(sigs, alts[i].body, 0))
  }

  ghost predicate FieldsSpined(sigs: Sigs, fs: seq<Field>) {
    forall i :: 0 <= i < |fs| ==> (assert fs[i].value < fs[i]; Spined(sigs, fs[i].value, 0))
  }

  /** More arguments do no harm. */
  lemma {:induction false} SpinedMore(sigs: Sigs, e: Core, due: nat, more: nat)
    requires Spined(sigs, e, due) && due <= more
    ensures Spined(sigs, e, more)
  {
    if e.App? { SpinedMore(sigs, e.fun, due + 1, more + 1); }
    if e.TyApp? { SpinedMore(sigs, e.expr, due, more); }
  }

  // ---- Substitution ----

  ghost predicate SubsSpined(sigs: Sigs, subs: Subs) { forall y :: y in subs ==> Spined(sigs, subs[y], 0) }

  lemma RenamingSpined(sigs: Sigs, subs: Subs)
    requires Renaming(subs)
    ensures SubsSpined(sigs, subs)
  {
  }

  /** Replacing variables by terms that lack no argument lets none go missing. */
  lemma {:induction false} SubstSpined(sigs: Sigs, e: Core, subs: Subs, fv: set<Name>, n: nat, due: nat)
    requires Spined(sigs, e, due) && SubsSpined(sigs, subs)
    ensures Spined(sigs, SubstMany(e, subs, fv, n).0, due)
    decreases Size(e), 2
  {
    hide SubsSpined, SubstPlain, SubstData, SubstBinder, SubstBound;
    if e.Var? {
      VarSpined(sigs, e.name, e.mod, subs, fv, n, due);
    } else if e.Lam? {
      BinderSpined(sigs, e.param, e.body, subs, fv, n);
    } else if e.Fix? {
      BinderSpined(sigs, e.name, e.body, subs, fv, n);
    } else if e.Case? {
      AltsSubstSpined(sigs, e.alts, subs, fv, n);
      SubstSpined(sigs, e.scrutinee, subs, fv, SubstAlts(e.alts, subs, fv, n).1, 0);
    } else if e.Bind? {
      SubstSpined(sigs, e.comp, subs, fv, n, 0);
      BoundSpined(sigs, e.bvar, e.body, subs, fv, SubstMany(e.comp, subs, fv, n).1);
    } else if IsData(e) {
      DataSpined(sigs, e, subs, fv, n, due);
    } else {
      PlainSpined(sigs, e, subs, fv, n, due);
    }
  }

  lemma VarSpined(sigs: Sigs, x: Name, m: string, subs: Subs, fv: set<Name>, n: nat, due: nat)
    requires SubsSpined(sigs, subs)
    ensures Spined(sigs, SubstMany(Var(x, m), subs, fv, n).0, due)
  {
    hide Spined;
    if m == "" && x in subs { SpinedMore(sigs, subs[x], 0, due); } else { NoSpine(sigs, x, m, due); }
  }

  lemma NoSpine(sigs: Sigs, x: Name, m: string, due: nat)
    ensures Spined(sigs, Var(x, m), due)
  {
  }

  lemma {:induction false} PlainSpined(sigs: Sigs, e: Core, subs: Subs, fv: set<Name>, n: nat, due: nat)
    requires !e.Var? && !Binds(e) && !IsData(e) && Spined(sigs, e, due) && SubsSpined(sigs, subs)
    ensures Spined(sigs, SubstPlain(e, subs, fv, n).0, due)
    decreases Size(e), 1
  {
    hide SubsSpined, SubstMany;
    match e
    case App(f, a) =>
      SubstSpined(sigs, f, subs, fv, n, due + 1);
      SubstSpined(sigs, a, subs, fv, SubstMany(f, subs, fv, n).1, 0);
    case TyApp(x, _) => SubstSpined(sigs, x, subs, fv, n, due);
    case TyLam(_, _, b) => SubstSpined(sigs, b, subs, fv, n, 0);
    case Con(_, _, args) => ArgsSpined(sigs, args, subs, fv, n);
    case Pure(x) => SubstSpined(sigs, x, subs, fv, n, 0);
    case Thunk(c) => SubstSpined(sigs, c, subs, fv, n, 0);
    case Force(x) => SubstSpined(sigs, x, subs, fv, n, 0);
    case Merge(l, r, _, _) =>
      SubstSpined(sigs, l, subs, fv, n, 0);
      SubstSpined(sigs, r, subs, fv, SubstMany(l, subs, fv, n).1, 0);
    case PrimOp(_, _, _, args) => ArgsSpined(sigs, args, subs, fv, n);
    case Lit(_) =>
    case Error =>
  }

  lemma {:induction false} DataSpined(sigs: Sigs, e: Core, subs: Subs, fv: set<Name>, n: nat, due: nat)
    requires IsData(e) && Spined(sigs, e, due) && SubsSpined(sigs, subs)
    ensures Spined(sigs, SubstData(e, subs, fv, n).0, due)
    decreases Size(e), 0
  {
    hide SubsSpined, SubstMany;
    match e
    case RecordLit(fs) => FieldsSubstSpined(sigs, fs, subs, fv, n);
    case RecordProj(r, _) => SubstSpined(sigs, r, subs, fv, n, 0);
    case RecordUpdate(r, fs) =>
      FieldsSubstSpined(sigs, fs, subs, fv, n);
      SubstSpined(sigs, r, subs, fv, SubstFields(fs, subs, fv, n).1, 0);
    case VariantLit(_, v) => SubstSpined(sigs, v, subs, fv, n, 0);
  }

  lemma {:induction false} ArgsSpined(sigs: Sigs, es: seq<Core>, subs: Subs, fv: set<Name>, n: nat)
    requires AllSpined(sigs, es) && SubsSpined(sigs, subs)
    ensures AllSpined(sigs, SubstArgs(es, subs, fv, n).0)
    decreases SizeArgs(es), |es| + 3
  {
    hide SubsSpined, SubstMany, Spined;
    if es != [] {
      SubstSpined(sigs, es[0], subs, fv, n, 0);
      ArgsSpined(sigs, es[1..], subs, fv, SubstMany(es[0], subs, fv, n).1);
    }
  }

  lemma {:induction false} FieldsSubstSpined(sigs: Sigs, fs: seq<Field>, subs: Subs, fv: set<Name>, n: nat)
    requires FieldsSpined(sigs, fs) && SubsSpined(sigs, subs)
    ensures FieldsSpined(sigs, SubstFields(fs, subs, fv, n).0)
    decreases SizeFields(fs), |fs| + 3
  {
    hide SubsSpined, SubstMany, Spined;
    if fs != [] {
      SubstSpined(sigs, fs[0].value, subs, fv, n, 0);
      FieldsSubstSpined(sigs, fs[1..], subs, fv, SubstMany(fs[0].value, subs, fv, n).1);
    }
  }

  lemma {:induction false} AltsSubstSpined(sigs: Sigs, alts: seq<Alt>, subs: Subs, fv: set<Name>, n: nat)
    requires AltsSpined(sigs, alts) && SubsSpined(sigs, subs)
    ensures AltsSpined(sigs, SubstAlts(alts, subs, fv, n).0)
    decreases SizeAlts(alts), |alts| + 4
  {
    hide SubsSpined, SubstAlt, Spined;
    if alts != [] {
      AltSpined(sigs, alts[0], subs, fv, n);
      AltsSubstSpined(sigs, alts[1..], subs, fv, SubstAlt(alts[0], subs, fv, n).1);
    }
  }

  lemma {:induction false} AltSpined(sigs: Sigs, alt: Alt, subs: Subs, fv: set<Name>, n: nat)
    requires Spined(sigs, alt.body, 0) && SubsSpined(sigs, subs)
    ensures Spined(sigs, SubstAlt(alt, subs, fv, n).0.body, 0)
    decreases Size(alt.body), 3
  {
    hide SubstMany, Spined, RenameClashes, Active;
    var bs := Bindings(alt.pat);
    var active := Active(subs, bs);
    var pr := RenameClashes(PatternRenaming(alt.pat, map[], {}, n), bs, fv);
    ActiveKeeps(subs, bs);
    var r1 := if |pr.rename| == 0 then (alt.body, pr.n) else SubstMany(alt.body, pr.rename, pr.drawn, pr.n);
    if |pr.rename| != 0 {
      RenamingSpined(sigs, pr.rename);
      SubstSpined(sigs, alt.body, pr.rename, pr.drawn, pr.n, 0);
    }
    if |active| != 0 { SubstSpined(sigs, r1.0, active, fv, r1.1, 0); }
  }

  lemma {:induction false} BinderSpined(sigs: Sigs, x: Name, b: Core, subs: Subs, fv: set<Name>, n: nat)
    requires Spined(sigs, b, 0) && SubsSpined(sigs, subs)
    ensures Spined(sigs, SubstBinder(x, b, subs, fv, n).1, 0)
    decreases Size(b), 4
  {
    hide SubstMany, Spined;
    if x in subs {
      if |WithoutKey(subs, x)| != 0 { SubstSpined(sigs, b, WithoutKey(subs, x), fv, n, 0); }
    } else if x in fv {
      var r1 := RenameSpined(sigs, x, b, n);
      SubstSpined(sigs, r1.0, subs, fv, r1.1, 0);
    } else {
      SubstSpined(sigs, b, subs, fv, n, 0);
    }
  }

  lemma {:induction false} BoundSpined(sigs: Sigs, x: Name, b: Core, subs: Subs, fv: set<Name>, n: nat)
    requires Spined(sigs, b, 0) && SubsSpined(sigs, subs)
    ensures Spined(sigs, SubstBound(x, b, subs, fv, n).1, 0)
    decreases Size(b), 4
  {
    hide SubstMany, Spined;
    var active := if x in subs then WithoutKey(subs, x) else subs;
    var r1 := (b, n);
    if x in fv { r1 := RenameSpined(sigs, x, b, n); }
    if |active| != 0 { SubstSpined(sigs, r1.0, active, fv, r1.1, 0); }
  }

  /** Renaming one binder to the next fresh name. */
  lemma {:induction false} RenameSpined(sigs: Sigs, x: Name, b: Core, n: nat) returns (r: (Core, nat))
    requires Spined(sigs, b, 0)
    ensures var f := FreshNames.FreshName(x, n + 1); r == SubstMany(b, map[x := Var(f, "")], {f}, n + 1)
    ensures Spined(sigs, r.0, 0) && Size(r.0) == Size(b)
    decreases Size(b), 3
  {
    hide SubstMany, Spined;
    var f := FreshNames.FreshName(x, n + 1);
    var subs := map[x := Var(f, "")];
    RenamingSpined(sigs, subs);
    SubstSpined(sigs, b, subs, {f}, n + 1, 0);
    r := SubstMany(b, subs, {f}, n + 1);
  }

  // ---- Rewrites ----

  /** A term that lacks no argument may stand anywhere. */
  lemma FillSpined(sigs: Sigs, b: Core, x: Name, a: Core, n: nat, due: nat)
    requires Spined(sigs, b, 0) && Spined(sigs, a, 0)
    ensures Spined(sigs, SubstFV(b, x, a, FreeNames(a), n).0, due)
  {
    hide Spined, SubstMany, FreeNames;
    SubstSpined(sigs, b, map[x := a], FreeNames(a), n, 0);
    SpinedMore(sigs, SubstFV(b, x, a, FreeNames(a), n).0, 0, due);
  }

  lemma BetaSpined(sigs: Sigs, c: Core, n: nat, due: nat)
    requires Spined(sigs, c, due)
    ensures Spined(sigs, BetaReduce(c, n).e, due)
  {
    hide SubstFV, FreeNames;
    if c.App? && c.fun.Lam? {
      assert Spined(sigs, c.fun, due + 1);
      FillSpined(sigs, c.fun.body, c.fun.param, c.arg, n, due);
    }
  }

  lemma BindPureSpined(sigs: Sigs, c: Core, n: nat, due: nat)
    requires Spined(sigs, c, due)
    ensures Spined(sigs, BindPureElim(c, n).e, due)
  {
    hide SubstFV, FreeNames;
    if c.Bind? && c.comp.Pure? {
      assert Spined(sigs, c.comp, 0);
      FillSpined(sigs, c.body, c.bvar, c.comp.expr, n, due);
    }
  }

  lemma ForceSpined(sigs: Sigs, c: Core, n: nat, due: nat)
    requires Spined(sigs, c, due)
    ensures Spined(sigs, ForceThunkElim(c, n).e, due)
  {
    if c.Force? && c.expr.Thunk? {
      assert Spined(sigs, c.expr, 0);
      SpinedMore(sigs, c.expr.comp, 0, due);
    }
  }

  lemma FloatSpined(sigs: Sigs, c: Core, n: nat, due: nat)
    requires Spined(sigs, c, due)
    ensures Spined(sigs, AppTyLamFloat(c, n).e, due)
  {
    if c.App? && c.fun.TyLam? {
      assert Spined(sigs, c.fun, due + 1);
      SpinedMore(sigs, c.fun.body, 0, 1);
      assert Spined(sigs, App(c.fun.body, c.arg), 0);
    }
  }

  lemma FieldSpined(sigs: Sigs, fs: seq<Field>, i: nat, due: nat)
    requires FieldsSpined(sigs, fs) && i < |fs|
    ensures Spined(sigs, fs[i].value, due)
  {
    hide Spined;
    SpinedMore(sigs, fs[i].value, 0, due);
  }

  lemma ProjSpined(sigs: Sigs, c: Core, n: nat, due: nat)
    requires Spined(sigs, c, due)
    ensures Spined(sigs, RecordProjKnown(c, n).e, due)
  {
    var o := RecordProjKnown(c, n);
    if o.fired {
      assert Spined(sigs, c.record, 0);
      assert FieldsSpined(sigs, c.record.fields);
      FieldSpined(sigs, c.record.fields, FieldIndex(c.record.fields, c.lbl), due);
    }
  }

  lemma {:induction false} WithoutSpined(sigs: Sigs, us: seq<Field>, vs: seq<Field>)
    requires FieldsSpined(sigs, us)
    ensures FieldsSpined(sigs, Without(us, vs))
  {
    hide Spined;
    if us != [] { WithoutSpined(sigs, us[1..], vs); }
  }

  lemma UpdateSpined(sigs: Sigs, c: Core, n: nat, due: nat)
    requires Spined(sigs, c, due)
    ensures Spined(sigs, RecordUpdateChain(c, n).e, due)
  {
    if c.RecordUpdate? && c.record.RecordUpdate? {
      assert Spined(sigs, c.record, 0);
      WithoutSpined(sigs, c.record.updates, c.updates);
    }
  }

  lemma {:induction false} PeelSpined(sigs: Sigs, e: Core, due: nat)
    requires Spined(sigs, e, due)
    ensures Spined(sigs, PeelTyApps(e), due)
  {
    if e.TyApp? { PeelSpined(sigs, e.expr, due); }
  }

  lemma AbsorbSpined(sigs: Sigs, c: Core, n: nat, due: nat)
    requires Spined(sigs, c, due)
    ensures Spined(sigs, PrimOpAbsorb(c, n).e, due)
  {
    hide PeelTyApps;
    if c.App? { PeelSpined(sigs, c.fun, due + 1); }
  }

  /** Types do not count. */
  lemma {:induction false} TypeSpined(sigs: Sigs, c: Core, a: Name, ty: Ty, due: nat)
    requires Spined(sigs, c, due)
    ensures Spined(sigs, SubstTyVarInCore(c, a, ty), due)
    decreases c, 2
  {
    match c
    case Var(_, _) =>
    case Lam(_, _, b) => TypeSpined(sigs, b, a, ty, 0);
    case App(f, x) => TypeSpined(sigs, f, a, ty, due + 1); TypeSpined(sigs, x, a, ty, 0);
    case TyApp(x, _) => TypeSpined(sigs, x, a, ty, due);
    case TyLam(_, _, b) => TypeSpined(sigs, b, a, ty, 0);
    case Con(_, _, es) => TypeArgsSpined(sigs, c, es, a, ty);
    case Case(s, alts) =>
      TypeSpined(sigs, s, a, ty, 0);
      TypeAltsSpined(sigs, c, alts, a, ty);
    case Fix(_, b) => TypeSpined(sigs, b, a, ty, 0);
    case Pure(x) => TypeSpined(sigs, x, a, ty, 0);
    case Bind(k, _, _, b) => TypeSpined(sigs, k, a, ty, 0); TypeSpined(sigs, b, a, ty, 0);
    case Thunk(x) => TypeSpined(sigs, x, a, ty, 0);
    case Force(x) => TypeSpined(sigs, x, a, ty, 0);
    case Merge(l, r, _, _) => TypeSpined(sigs, l, a, ty, 0); TypeSpined(sigs, r, a, ty, 0);
    case PrimOp(_, _, _, es) => TypeArgsSpined(sigs, c, es, a, ty);
    case Lit(_) =>
    case Error =>
    case _ => TypeDataSpined(sigs, c, a, ty, due);
  }

  lemma {:induction false} TypeDataSpined(sigs: Sigs, c: Core, a: Name, ty: Ty, due: nat)
    requires IsData(c) && Spined(sigs, c, due)
    ensures Spined(sigs, SubstTyVarInCore(c, a, ty), due)
    decreases c, 1
  {
    match c
    case RecordLit(fs) => TypeFieldsSpined(sigs, c, fs, a, ty);
    case RecordProj(r, _) => TypeSpined(sigs, r, a, ty, 0);
    case RecordUpdate(r, fs) =>
      TypeSpined(sigs, r, a, ty, 0);
      TypeFieldsSpined(sigs, c, fs, a, ty);
    case VariantLit(_, x) => TypeSpined(sigs, x, a, ty, 0);
  }

  lemma {:induction false} TypeArgsSpined(sigs: Sigs, c: Core, es: seq<Core>, a: Name, ty: Ty)
    requires AllSpined(sigs, es) && forall i :: 0 <= i < |es| ==> es[i] < c
    ensures AllSpined(sigs, SubstTyAll(es, a, ty))
    decreases c, 0
  {
    hide Spined, SubstTyVarInCore;
    forall i | 0 <= i < |es| ensures Spined(sigs, SubstTyVarInCore(es[i], a, ty), 0) { TypeSpined(sigs, es[i], a, ty, 0); }
  }

  lemma {:induction false} TypeFieldsSpined(sigs: Sigs, c: Core, fs: seq<Field>, a: Name, ty: Ty)
    requires FieldsSpined(sigs, fs) && forall i :: 0 <= i < |fs| ==> fs[i].value < c
    ensures FieldsSpined(sigs, SubstTyFields(fs, a, ty))
    decreases c, 0
  {
    hide Spined, SubstTyVarInCore;
    forall i | 0 <= i < |fs| ensures Spined(sigs, SubstTyVarInCore(fs[i].value, a, ty), 0) { TypeSpined(sigs, fs[i].value, a, ty, 0); }
  }

  lemma {:induction false} TypeAltsSpined(sigs: Sigs, c: Core, alts: seq<Alt>, a: Name, ty: Ty)
    requires AltsSpined(sigs, alts) && forall i :: 0 <= i < |alts| ==> alts[i].body < c
    ensures AltsSpined(sigs, SubstTyAlts(alts, a, ty))
    decreases c, 0
  {
    hide Spined, SubstTyVarInCore;
    forall i | 0 <= i < |alts| ensures Spined(sigs, SubstTyVarInCore(alts[i].body, a, ty), 0) { TypeSpined(sigs, alts[i].body, a, ty, 0); }
  }

  lemma TyBetaSpined(sigs: Sigs, c: Core, n: nat, due: nat)
    requires Spined(sigs, c, due)
    ensures Spined(sigs, TyAppBeta(c, n).e, due)
  {
    hide SubstTyVarInCore;
    if c.TyApp? && c.expr.TyLam? {
      assert Spined(sigs, c.expr, due);
      TypeSpined(sigs, c.expr.body, c.expr.tyParam, c.tyArg, 0);
      SpinedMore(sigs, TyAppBeta(c, n).e, 0, due);
    }
  }

  // ---- Known scrutinees ----

  lemma {:induction false} CollectSpined(sigs: Sigs, p: Pattern, val: Core, acc: Collected)
    requires Spined(sigs, val, 0) && SubsSpined(sigs, acc.subs)
    ensures SubsSpined(sigs, CollectPatSubs(p, val, acc).subs)
    decreases p
  {
    match p
    case PVar(_) =>
    case PRecord(fs) => CollectFieldsSpined(sigs, fs, val, acc);
    case PCon(c, m, args) => if val.Con? && val.con == c && val.mod == m { CollectArgsSpined(sigs, args, val.args, acc); }
    case _ =>
  }

  lemma {:induction false} CollectArgsSpined(sigs: Sigs, ps: seq<Pattern>, vals: seq<Core>, acc: Collected)
    requires AllSpined(sigs, vals) && SubsSpined(sigs, acc.subs)
    ensures SubsSpined(sigs, CollectArgSubs(ps, vals, acc).subs)
    decreases ps
  {
    hide Spined, SubsSpined;
    if ps != [] && vals != [] {
      CollectSpined(sigs, ps[0], vals[0], acc);
      CollectArgsSpined(sigs, ps[1..], vals[1..], CollectPatSubs(ps[0], vals[0], acc));
    }
  }

  lemma {:induction false} CollectFieldsSpined(sigs: Sigs, fs: seq<PField>, val: Core, acc: Collected)
    requires Spined(sigs, val, 0) && SubsSpined(sigs, acc.subs)
    ensures SubsSpined(sigs, CollectFieldSubs(fs, val, acc).subs)
    decreases fs
  {
    hide SubsSpined;
    if fs != [] {
      assert fs[0].pat < fs[0];
      var t := FieldTerm(val, fs[0].lbl);
      assert Spined(sigs, t, 0);
      CollectSpined(sigs, fs[0].pat, t, acc);
      CollectFieldsSpined(sigs, fs[1..], val, CollectPatSubs(fs[0].pat, t, acc));
    }
  }

  lemma CtorSpined(sigs: Sigs, c: Core, n: nat, due: nat)
    requires Spined(sigs, c, due)
    ensures Spined(sigs, CaseOfKnownCtor(c, n).e, due)
  {
    hide SubstMany, CollectArgSubs, CtorAlt;
    var o := CaseOfKnownCtor(c, n);
    if o.fired {
      var con := c.scrutinee;
      var alt := c.alts[CtorAlt(c.alts, con.con, con.mod)];
      var col := CollectArgSubs(alt.pat.args, con.args, Collected(map[], {}));
      assert Spined(sigs, con, 0) && Spined(sigs, alt.body, 0);
      CollectArgsSpined(sigs, alt.pat.args, con.args, Collected(map[], {}));
      SubstSpined(sigs, alt.body, col.subs, col.fv, n, 0);
      SpinedMore(sigs, o.e, 0, due);
    }
  }

  lemma LitSpined(sigs: Sigs, c: Core, n: nat, due: nat)
    requires Spined(sigs, c, due)
    ensures Spined(sigs, CaseOfKnownLit(c, n).e, due)
  {
    hide SubstFV, FreeNames, LitAlt;
    var o := CaseOfKnownLit(c, n);
    if o.fired {
      var alt := c.alts[LitAlt(c.alts, c.scrutinee.value, 0, |c.alts|)];
      assert Spined(sigs, alt.body, 0);
      if alt.pat.PVar? { FillSpined(sigs, alt.body, alt.pat.name, c.scrutinee, n, due); } else { SpinedMore(sigs, o.e, 0, due); }
    }
  }

  // ---- Commuting with case ----

  lemma {:induction false} RenameEachSpined(sigs: Sigs, p: Pattern, b: Core, ds: seq<Draw>, n: nat)
    requires Spined(sigs, b, 0)
    ensures Spined(sigs, RenameEach(p, b, ds, n).1, 0)
    decreases |ds|
  {
    hide Spined, SubstMany;
    if ds != [] {
      var subs := map[ds[0].was := Var(ds[0].now, "")];
      RenamingSpined(sigs, subs);
      SubstSpined(sigs, b, subs, {ds[0].now}, n, 0);
      var r := SubstMany(b, subs, {ds[0].now}, n);
      RenameEachSpined(sigs, RenamePatternVar(p, ds[0].was, ds[0].now), r.0, ds[1..], r.1);
    }
  }

  ghost predicate FrameSpined(sigs: Sigs, fr: Frame) {
    match fr
    case InCase(alts) => AltsSpined(sigs, alts)
    case InBind(_, _, b) => Spined(sigs, b, 0)
  }

  lemma {:induction false} PushSpined(sigs: Sigs, alts: seq<Alt>, fr: Frame, n: nat)
    requires AltsSpined(sigs, alts) && FrameSpined(sigs, fr)
    ensures AltsSpined(sigs, PushInto(alts, fr, n).0)
  {
    hide RenameEach, Draws, FrameNames;
    if alts != [] {
      var a := AvoidCapture(alts[0].pat, alts[0].body, FrameNames(fr), n);
      var d := Draws(Bindings(alts[0].pat), FrameNames(fr), n);
      RenameEachSpined(sigs, alts[0].pat, alts[0].body, d.0, d.1);
      PushSpined(sigs, alts[1..], fr, a.2);
    }
  }

  lemma CaseOfCaseSpined(sigs: Sigs, c: Core, n: nat, due: nat)
    requires Spined(sigs, c, due)
    ensures Spined(sigs, CaseOfCase(c, n).e, due)
  {
    hide PushInto;
    if CaseOfCase(c, n).fired {
      assert Spined(sigs, c.scrutinee, 0);
      PushSpined(sigs, c.scrutinee.alts, InCase(c.alts), n);
    }
  }

  lemma BindOfCaseSpined(sigs: Sigs, c: Core, n: nat, due: nat)
    requires Spined(sigs, c, due)
    ensures Spined(sigs, BindOfCase(c, n).e, due)
  {
    hide PushInto;
    if BindOfCase(c, n).fired {
      assert Spined(sigs, c.comp, 0);
      PushSpined(sigs, c.comp.alts, InBind(c.bvar, c.isDiscard, c.body), n);
    }
  }

  // ---- Dictionaries and registered rules ----

  /** The arguments of a spine, and that its head gets enough of them. */
  lemma {:induction false} SpineCount(sigs: Sigs, e: Core, due: nat)
    requires Spined(sigs, e, due)
    ensures AllSpined(sigs, SpineArgs(e))
    ensures Head(e).Con? && Head(e).con in sigs ==> sigs[Head(e).con].arity <= |Head(e).args| + |SpineArgs(e)| + due
  {
    if e.App? { SpineCount(sigs, e.fun, due + 1); }
    if e.TyApp? { SpineCount(sigs, e.expr, due); }
  }

  /** A dictionary that lacks no argument, in either form. */
  ghost predicate SpinedDict(sigs: Sigs, d: Core) {
    Spined(sigs, d, 0) && (Normalized(d).Just? ==> Head(d).args == [])
  }

  ghost predicate SpinedRules(sigs: Sigs, rules: seq<Rule>) { forall i :: 0 <= i < |rules| ==> SpinedRule(sigs, rules[i]) }

  ghost predicate SpinedRule(sigs: Sigs, rule: Rule) {
    forall c, n, due: nat :: Spined(sigs, c, due) ==> Spined(sigs, rule(c, n).e, due)
  }

  lemma SettledSpined(sigs: Sigs, d: Core)
    requires SpinedDict(sigs, d)
    ensures Spined(sigs, Settled(d), 0)
  {
    hide Head, SpineArgs;
    SpineCount(sigs, d, 0);
  }

  lemma DictSpined(sigs: Sigs, dicts: Dicts, c: Core, n: nat, due: nat)
    requires Spined(sigs, c, due) && (LooksUp(dicts, c) ==> SpinedDict(sigs, Found(dicts, c)))
    ensures Spined(sigs, CaseOfKnownDict(dicts, c, n).e, due)
  {
    hide CaseOfKnownCtor, Normalized;
    if LooksUp(dicts, c) {
      var d := Found(dicts, c);
      SettledSpined(sigs, d);
      CtorSpined(sigs, Case(Settled(d), c.alts), n, due);
      DictOutcome(dicts, c, n);
    }
  }

  // ---- Passes ----

  /** The rewrites before case-of-known-constructor. */
  lemma EarlySpined(sigs: Sigs, c: Core, n: nat, due: nat)
    requires Spined(sigs, c, due)
    ensures Spined(sigs, Early(c, n).e, due)
  {
    hide Spined, BetaReduce, TyAppBeta, AppTyLamFloat;
    var o1 := Then(Kept(c, n), BetaReduce);
    var o2 := Then(o1, TyAppBeta);
    BetaSpined(sigs, c, n, due);
    TyBetaSpined(sigs, o1.e, o1.n, due);
    FloatSpined(sigs, o2.e, o2.n, due);
  }

  lemma AlgebraicSpined(sigs: Sigs, c: Core, n: nat, due: nat)
    requires Spined(sigs, c, due)
    ensures Spined(sigs, Algebraic(c, n).e, due)
  {
    hide Spined, Early, CaseOfKnownCtor, CaseOfKnownLit, BindPureElim, ForceThunkElim, RecordProjKnown, RecordUpdateChain,
      PrimOpAbsorb, CaseOfCase, BindOfCase;
    EarlySpined(sigs, c, n, due);
    var o0 := Early(c, n);
    CtorSpined(sigs, o0.e, o0.n, due);
    var o1 := KnownCtor(c, n);
    LitSpined(sigs, o1.e, o1.n, due);
    var o2 := KnownLit(c, n);
    BindPureSpined(sigs, o2.e, o2.n, due);
    var o3 := Then(o2, BindPureElim);
    ForceSpined(sigs, o3.e, o3.n, due);
    var o4 := Then(o3, ForceThunkElim);
    ProjSpined(sigs, o4.e, o4.n, due);
    var o5 := Then(o4, RecordProjKnown);
    UpdateSpined(sigs, o5.e, o5.n, due);
    var o6 := Then(o5, RecordUpdateChain);
    AbsorbSpined(sigs, o6.e, o6.n, due);
    var o7 := Then(o6, PrimOpAbsorb);
    CaseOfCaseSpined(sigs, o7.e, o7.n, due);
    var o8 := Then(o7, CaseOfCase);
    BindOfCaseSpined(sigs, o8.e, o8.n, due);
  }

  lemma {:induction false} RegisteredSpined(sigs: Sigs, rules: seq<Rule>, o: Out, due: nat)
    requires SpinedRules(sigs, rules) && Spined(sigs, o.e, due)
    ensures Spined(sigs, Registered(rules, o).e, due)
    decreases |rules|
  {
    hide Spined;
    if rules != [] {
      assert SpinedRule(sigs, rules[0]);
      forall i | 0 <= i < |rules[1..]| ensures SpinedRule(sigs, rules[1..][i]) { assert SpinedRule(sigs, rules[i + 1]); }
      RegisteredSpined(sigs, rules[1..], Then(o, rules[0]), due);
    }
  }

  lemma ApplySpined(sigs: Sigs, cfg: Config, c: Core, n: nat, due: nat)
    requires SpinedRules(sigs, cfg.rules) && Spined(sigs, c, due)
    requires var e := Algebraic(c, n).e; LooksUp(cfg.dicts, e) ==> SpinedDict(sigs, Found(cfg.dicts, e))
    ensures Spined(sigs, ApplyRules(cfg, c, n).e, due)
  {
    hide Spined, Algebraic, CaseOfKnownDict, SpinedRules, LooksUp, SpinedDict;
    AlgebraicSpined(sigs, c, n, due);
    var o := Algebraic(c, n);
    DictSpined(sigs, cfg.dicts, o.e, o.n, due);
    RegisteredSpined(sigs, cfg.rules, KnownDict(cfg, c, n), due);
  }

  /** How many arguments follow the subterm `i` of a node that `due` follow. */
  function Due(e: Core, i: nat, due: nat): nat { if e.App? && i == 0 then due + 1 else if e.TyApp? then due else 0 }

  ghost predicate ConFull(sigs: Sigs, e: Core, due: nat) { e.Con? && e.con in sigs ==> sigs[e.con].arity <= |e.args| + due }

  ghost predicate KidsSpined(sigs: Sigs, e: Core, es: seq<Core>, due: nat) {
    forall i :: 0 <= i < |es| ==> Spined(sigs, es[i], Due(e, i, due))
  }

  lemma SpinedNode(sigs: Sigs, e: Core, due: nat)
    requires Spined(sigs, e, due)
    ensures ConFull(sigs, e, due) && KidsSpined(sigs, e, SubTerms(e), due)
  {
    hide Scopes;
    if e.Case? || e.Con? || e.PrimOp? || e.RecordLit? || e.RecordUpdate? {
      ManySpined(sigs, e, due);
    } else {
      FewSpined(sigs, e, due);
    }
  }

  lemma FewSpined(sigs: Sigs, e: Core, due: nat)
    requires Spined(sigs, e, due) && !e.Case? && !e.Con? && !e.PrimOp? && !e.RecordLit? && !e.RecordUpdate?
    ensures KidsSpined(sigs, e, SubTerms(e), due)
  {
    var es := SubTerms(e);
    assert |es| <= 2;
    if |es| > 0 { assert Spined(sigs, es[0], Due(e, 0, due)); }
    if |es| > 1 { assert Spined(sigs, es[1], Due(e, 1, due)); }
  }

  lemma ManySpined(sigs: Sigs, e: Core, due: nat)
    requires Spined(sigs, e, due) && (e.Case? || e.Con? || e.PrimOp? || e.RecordLit? || e.RecordUpdate?)
    ensures KidsSpined(sigs, e, SubTerms(e), due)
  {
    hide Scopes;
    var es := SubTerms(e);
    ManyKids(e);
    forall i | 0 <= i < |es| ensures Spined(sigs, es[i], 0) {
      if e.Case? && i > 0 { assert es[i] == e.alts[i - 1].body; }
      if e.RecordUpdate? && i > 0 { assert es[i] == e.updates[i - 1].value; }
    }
  }

  lemma ManyKids(e: Core)
    requires e.Case? || e.Con? || e.PrimOp? || e.RecordLit? || e.RecordUpdate?
    ensures var es := SubTerms(e);
      && (e.Case? ==> |es| == 1 + |e.alts| && es[0] == e.scrutinee && forall i :: 0 < i < |es| ==> es[i] == e.alts[i - 1].body)
      && (e.Con? ==> es == e.args)
      && (e.PrimOp? ==> es == e.args)
      && (e.RecordLit? ==> |es| == |e.fields| && forall i :: 0 <= i < |es| ==> es[i] == e.fields[i].value)
      && (e.RecordUpdate? ==> |es| == 1 + |e.updates| && es[0] == e.record && forall i :: 0 < i < |es| ==> es[i] == e.updates[i - 1].value)
  {
  }

  lemma WithKidsSpined(sigs: Sigs, e: Core, bs: seq<Core>, due: nat)
    requires |bs| == |Scopes(e)| && ConFull(sigs, e, due) && KidsSpined(sigs, e, bs, due)
    ensures Spined(sigs, WithKids(e, bs), due)
  {
  }
}
