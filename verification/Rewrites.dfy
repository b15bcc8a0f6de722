/**
  The optimizer's single-node rewrites on named Core. Each takes a node and the
  fresh-name counter and says what became of them and whether it fired.
 */
module Rewrites {
  import opened CoreIR
  import opened FreshNames
  import opened Subst
  import opened Records

  datatype Out = Out(e: Core, n: nat, fired: bool)

  function Kept(c: Core, n: nat): Out { Out(c, n, false) }

  function Became(e: Core, n: nat): Out { Out(e, n, true) }

  /** App (Lam x b) a  ->  b[x := a] */
  function BetaReduce(c: Core, n: nat): Out {
    if c.App? && c.fun.Lam? then
      var r := SubstFV(c.fun.body, c.fun.param, c.arg, FreeNames(c.arg), n); Became(r.0, r.1)
    else Kept(c, n)
  }

  /** Bind (Pure e) x b  ->  b[x := e] */
  function BindPureElim(c: Core, n: nat): Out {
    if c.Bind? && c.comp.Pure? then
      var r := SubstFV(c.body, c.bvar, c.comp.expr, FreeNames(c.comp.expr), n); Became(r.0, r.1)
    else Kept(c, n)
  }

  /** Force (Thunk e)  ->  e */
  function ForceThunkElim(c: Core, n: nat): Out {
    if c.Force? && c.expr.Thunk? then Became(c.expr.comp, n) else Kept(c, n)
  }

  // ---- Records and primitives ----

  /** The first field with that label, or the number of fields. */
  function FieldIndex(fs: seq<Field>, l: string): (i: nat)
    ensures i <= |fs| && (i < |fs| ==> fs[i].lbl == l)
  {
    if fs == [] then 0 else if fs[0].lbl == l then 0 else 1 + FieldIndex(fs[1..], l)
  }

  /** { .. l: e .. }.l  ->  e */
  function RecordProjKnown(c: Core, n: nat): Out {
    if c.RecordProj? && c.record.RecordLit? then
      var i := FieldIndex(c.record.fields, c.lbl);
      if i < |c.record.fields| then Became(c.record.fields[i].value, n) else Kept(c, n)
    else Kept(c, n)
  }

  function Without(us: seq<Field>, vs: seq<Field>): seq<Field> {
    if us == [] then []
    else if exists i :: 0 <= i < |vs| && vs[i].lbl == us[0].lbl then Without(us[1..], vs)
    else [us[0]] + Without(us[1..], vs)
  }

  /** { { r | us } | vs }  ->  { r | us not set again, vs } */
  function RecordUpdateChain(c: Core, n: nat): Out {
    if c.RecordUpdate? && c.record.RecordUpdate? then
      Became(RecordUpdate(c.record.record, Without(c.record.updates, c.updates) + c.updates), n)
    else Kept(c, n)
  }

  function PeelTyApps(e: Core): Core { if e.TyApp? then PeelTyApps(e.expr) else e }

  /** App (PrimOp as) a  ->  PrimOp (as, a)  while unsaturated */
  function PrimOpAbsorb(c: Core, n: nat): Out {
    if c.App? then
      var p := PeelTyApps(c.fun);
      if p.PrimOp? && |p.args| < p.arity
      then Became(PrimOp(p.prim, p.arity, p.isEffectful, p.args + [c.arg]), n) else Kept(c, n)
    else Kept(c, n)
  }

  // ---- Types ----

  function SubstTy(t: Ty, a: Name, ty: Ty): Ty {
    match t
    case TyVar(b) => if b == a then ty else t
    case TyApply(f, x) => TyApply(SubstTy(f, a, ty), SubstTy(x, a, ty))
    case TyArrow(f, x) => TyArrow(SubstTy(f, a, ty), SubstTy(x, a, ty))
    case _ => t
  }

  /** Replace a type variable in every type a term carries, except below a type
      abstraction that binds it again. */
  function SubstTyVarInCore(c: Core, a: Name, ty: Ty): Core {
    match c
    case Var(_, _) => c
    case Lam(x, t, b) => Lam(x, SubstTy(t, a, ty), SubstTyVarInCore(b, a, ty))
    case App(f, x) => App(SubstTyVarInCore(f, a, ty), SubstTyVarInCore(x, a, ty))
    case TyApp(x, t) => TyApp(SubstTyVarInCore(x, a, ty), SubstTy(t, a, ty))
    case TyLam(b, k, x) => if b == a then c else TyLam(b, SubstTy(k, a, ty), SubstTyVarInCore(x, a, ty))
    case Con(k, m, es) => Con(k, m, SubstTyAll(es, a, ty))
    case Case(s, alts) => Case(SubstTyVarInCore(s, a, ty), SubstTyAlts(alts, a, ty))
    case Fix(f, b) => Fix(f, SubstTyVarInCore(b, a, ty))
    case Pure(x) => Pure(SubstTyVarInCore(x, a, ty))
    case Bind(k, x, d, b) => Bind(SubstTyVarInCore(k, a, ty), x, d, SubstTyVarInCore(b, a, ty))
    case Thunk(x) => Thunk(SubstTyVarInCore(x, a, ty))
    case Force(x) => Force(SubstTyVarInCore(x, a, ty))
    case Merge(l, r, ll, rl) => Merge(SubstTyVarInCore(l, a, ty), SubstTyVarInCore(r, a, ty), ll, rl)
    case PrimOp(p, k, eff, es) => PrimOp(p, k, eff, SubstTyAll(es, a, ty))
    case Lit(_) => c
    case Error => c
    case RecordLit(fs) => RecordLit(SubstTyFields(fs, a, ty))
    case RecordProj(r, l) => RecordProj(SubstTyVarInCore(r, a, ty), l)
    case RecordUpdate(r, fs) => RecordUpdate(SubstTyVarInCore(r, a, ty), SubstTyFields(fs, a, ty))
    case VariantLit(t, x) => VariantLit(t, SubstTyVarInCore(x, a, ty))
  }

  function SubstTyAll(es: seq<Core>, a: Name, ty: Ty): seq<Core> {
    seq(|es|, i requires 0 <= i < |es| => SubstTyVarInCore(es[i], a, ty))
  }

  function SubstTyAlts(alts: seq<Alt>, a: Name, ty: Ty): seq<Alt> {
    seq(|alts|, i requires 0 <= i < |alts| =>
      assert alts[i].body < alts[i]; Alt(alts[i].pat, SubstTyVarInCore(alts[i].body, a, ty)))
  }

  function SubstTyFields(fs: seq<Field>, a: Name, ty: Ty): seq<Field> {
    seq(|fs|, i requires 0 <= i < |fs| =>
      assert fs[i].value < fs[i]; Field(fs[i].lbl, SubstTyVarInCore(fs[i].value, a, ty)))
  }

  /** TyApp (TyLam a b) ty  ->  b[a := ty] */
  function TyAppBeta(c: Core, n: nat): Out {
    if c.TyApp? && c.expr.TyLam? then Became(SubstTyVarInCore(c.expr.body, c.expr.tyParam, c.tyArg), n)
    else Kept(c, n)
  }

  /** App (TyLam a b) x  ->  TyLam a (App b x) */
  function AppTyLamFloat(c: Core, n: nat): Out {
    if c.App? && c.fun.TyLam? then Became(TyLam(c.fun.tyParam, c.fun.kind, App(c.fun.body, c.arg)), n)
    else Kept(c, n)
  }

  // ---- Known scrutinees ----

  /** A substitution under construction and the names free in it. */
  datatype Collected = Collected(subs: Subs, fv: set<Name>)

  /** The field of `val` a record pattern looks at: itself if `val` shows it. */
  function FieldTerm(val: Core, l: string): Core {
    if val.RecordLit? && FieldIndex(val.fields, l) < |val.fields|
    then val.fields[FieldIndex(val.fields, l)].value else RecordProj(val, l)
  }

  /** Walk a pattern along a term, replacing each variable met by the term there. */
  function CollectPatSubs(p: Pattern, val: Core, acc: Collected): Collected
    decreases p
  {
    match p
    case PVar(x) => Collected(acc.subs[x := val], acc.fv + FreeNames(val))
    case PRecord(fs) => CollectFieldSubs(fs, val, acc)
    case PCon(c, m, args) =>
      if val.Con? && val.con == c && val.mod == m then CollectArgSubs(args, val.args, acc) else acc
    case _ => acc
  }

  function CollectArgSubs(ps: seq<Pattern>, vals: seq<Core>, acc: Collected): Collected
    decreases ps
  {
    if ps == [] || vals == [] then acc
    else CollectArgSubs(ps[1..], vals[1..], CollectPatSubs(ps[0], vals[0], acc))
  }

  function CollectFieldSubs(fs: seq<PField>, val: Core, acc: Collected): Collected
    decreases fs
  {
    if fs == [] then acc
    else
      assert fs[0].pat < fs[0];
      CollectFieldSubs(fs[1..], val, CollectPatSubs(fs[0].pat, FieldTerm(val, fs[0].lbl), acc))
  }

  /** The first alternative for that constructor of that module. */
  function CtorAlt(alts: seq<Alt>, con: string, mod: string): (i: nat)
    ensures i <= |alts| && (i < |alts| ==> alts[i].pat.PCon? && alts[i].pat.con == con)
  {
    if alts == [] then 0
    else if alts[0].pat.PCon? && alts[0].pat.con == con && alts[0].pat.mod == mod then 0
    else 1 + CtorAlt(alts[1..], con, mod)
  }

  /** Case (Con C args) alts  ->  the alternative for C, its variables replaced */
  function CaseOfKnownCtor(c: Core, n: nat): Out {
    if c.Case? && c.scrutinee.Con? then
      var con := c.scrutinee;
      var i := CtorAlt(c.alts, con.con, con.mod);
      if i == |c.alts| then Kept(c, n)
      else
        var col := CollectArgSubs(c.alts[i].pat.args, con.args, Collected(map[], {}));
        if |col.subs| == 0 then Became(c.alts[i].body, n)
        else var r := SubstMany(c.alts[i].body, col.subs, col.fv, n); Became(r.0, r.1)
    else Kept(c, n)
  }

  /** The alternative a literal is resolved to: the first that is that literal
      or a variable, else the last wildcard, else none. */
  function LitAlt(alts: seq<Alt>, v: Literal, from: nat, wildcard: nat): (i: nat)
    requires from <= |alts| && wildcard <= |alts|
    ensures i <= |alts|
    decreases |alts| - from
  {
    if from == |alts| then wildcard
    else match alts[from].pat
      case PLit(u) => if u == v then from else LitAlt(alts, v, from + 1, wildcard)
      case PVar(_) => from
      case PWild => LitAlt(alts, v, from + 1, from)
      case _ => LitAlt(alts, v, from + 1, wildcard)
  }

  /** Case (Lit v) alts  ->  the alternative for v */
  function CaseOfKnownLit(c: Core, n: nat): Out {
    if c.Case? && c.scrutinee.Lit? then
      var i := LitAlt(c.alts, c.scrutinee.value, 0, |c.alts|);
      if i == |c.alts| then Kept(c, n)
      else if c.alts[i].pat.PVar? then
        var r := SubstFV(c.alts[i].body, c.alts[i].pat.name, c.scrutinee, FreeNames(c.scrutinee), n); Became(r.0, r.1)
      else Became(c.alts[i].body, n)
    else Kept(c, n)
  }

  // ---- Commuting with case ----

  const MaxDuplicateSize: nat := 50

  datatype Draw = Draw(was: Name, now: Name)

  /** Fresh names for the binders that are free in what is moved under them. */
  function Draws(bs: seq<Name>, fv: set<Name>, n: nat): (seq<Draw>, nat) {
    if bs == [] then ([], n)
    else if bs[0] in fv then
      var r := Draws(bs[1..], fv, n + 1); ([Draw(bs[0], FreshName(bs[0], n + 1))] + r.0, r.1)
    else Draws(bs[1..], fv, n)
  }

  /** Carry out the renamings one after another, on pattern and body. */
  function RenameEach(p: Pattern, b: Core, ds: seq<Draw>, n: nat): (Pattern, Core, nat)
    decreases |ds|
  {
    if ds == [] then (p, b, n)
    else
      var r := SubstMany(b, map[ds[0].was := Var(ds[0].now, "")], {ds[0].now}, n);
      RenameEach(RenamePatternVar(p, ds[0].was, ds[0].now), r.0, ds[1..], r.1)
  }

  function AvoidCapture(p: Pattern, b: Core, fv: set<Name>, n: nat): (Pattern, Core, nat) {
    var r := Draws(Bindings(p), fv, n);
    RenameEach(p, b, r.0, r.1)
  }

  /** What is being moved into the branches: a case or a bind without its head. */
  datatype Frame = InCase(alts: seq<Alt>) | InBind(bvar: Name, isDiscard: bool, body: Core)

  function Plug(fr: Frame, e: Core): Core {
    match fr
    case InCase(alts) => Case(e, alts)
    case InBind(x, d, b) => Bind(e, x, d, b)
  }

  /** The names free in the bodies that move, whether bound by the frame or not. */
  function FrameNames(fr: Frame): set<Name> {
    match fr
    case InCase(alts) => set i, x | 0 <= i < |alts| && x in FreeNames(alts[i].body) :: x
    case InBind(_, _, b) => FreeNames(b)
  }

  function FrameSize(fr: Frame): nat {
    match fr
    case InCase(alts) => SizeAlts(alts)
    case InBind(_, _, b) => Size(b)
  }

  function PushInto(alts: seq<Alt>, fr: Frame, n: nat): (r: (seq<Alt>, nat))
    ensures |r.0| == |alts|
  {
    if alts == [] then ([], n)
    else
      var a := AvoidCapture(alts[0].pat, alts[0].body, FrameNames(fr), n);
      var r := PushInto(alts[1..], fr, a.2);
      ([Alt(a.0, Plug(fr, a.1))] + r.0, r.1)
  }

  /** case (case e as) bs  ->  case e (as, each continued by bs) */
  function CaseOfCase(c: Core, n: nat): Out {
    if c.Case? && c.scrutinee.Case? && SizeAlts(c.alts) <= MaxDuplicateSize then
      var r := PushInto(c.scrutinee.alts, InCase(c.alts), n); Became(Case(c.scrutinee.scrutinee, r.0), r.1)
    else Kept(c, n)
  }

  /** bind (case e as) x b  ->  case e (as, each continued by x b) */
  function BindOfCase(c: Core, n: nat): Out {
    if c.Bind? && c.comp.Case? && Size(c.body) <= MaxDuplicateSize then
      var r := PushInto(c.comp.alts, InBind(c.bvar, c.isDiscard, c.body), n); Became(Case(c.comp.scrutinee, r.0), r.1)
    else Kept(c, n)
  }

  // ---- Known dictionaries ----

  /** Closed definitions of dictionaries, by the variable that stands for them. */
  type Dicts = map<VarKey, Core>

  /** The head of a chain of applications, and the value arguments in order. */
  function Head(e: Core): Core {
    if e.App? then Head(e.fun) else if e.TyApp? then Head(e.expr) else e
  }

  function SpineArgs(e: Core): seq<Core> {
    if e.App? then SpineArgs(e.fun) + [e.arg] else if e.TyApp? then SpineArgs(e.expr) else []
  }

  /** The constructor application a spine is turned into, whatever arguments
      its head already holds. */
  function Normalized(e: Core): Maybe<Core> {
    if Head(e).Con? && SpineArgs(e) != [] then Just(Con(Head(e).con, Head(e).mod, SpineArgs(e))) else Nothing
  }

  /** Case d alts, with d a known dictionary  ->  its definition in place of d,
      the case resolved as far as the constructor shows */
  function CaseOfKnownDict(dicts: Dicts, c: Core, n: nat): Out {
    if c.Case? && c.scrutinee.Var? && VarKey(c.scrutinee.mod, c.scrutinee.name) in dicts then
      var d := dicts[VarKey(c.scrutinee.mod, c.scrutinee.name)];
      var o := CaseOfKnownCtor(Case(d, c.alts), n);
      if o.fired then o
      else
        match Normalized(d)
        case Just(con) => var p := CaseOfKnownCtor(Case(con, c.alts), n); Became(p.e, p.n)
        case Nothing => Became(Case(d, c.alts), n)
    else Kept(c, n)
  }
}
