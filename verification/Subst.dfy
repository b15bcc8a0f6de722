/**
  Capture-avoiding simultaneous substitution on named Core. Results are paired
  with the fresh-name counter they leave behind. A binder that would capture is
  renamed first, by a substitution of its own, and the renamed body is
  substituted into next; that renaming keeps the node count is what makes this
  nested recursion end.
 */
module Subst {
  import opened CoreIR
  import opened FreshNames

  type Subs = map<Name, Core>

  ghost predicate Renaming(subs: Subs) { forall y :: y in subs ==> subs[y].Var? }

  function WithoutKey(m: Subs, key: Name): Subs {
    if |m| <= 1 then map[] else m - {key}
  }

  function RenamePatternVar(p: Pattern, from: Name, to: Name): Pattern {
    match p
    case PVar(x) => if x == from then PVar(to) else p
    case PCon(c, m, args) =>
      PCon(c, m, seq(|args|, i requires 0 <= i < |args| => RenamePatternVar(args[i], from, to)))
    case PRecord(fs) =>
      PRecord(seq(|fs|, i requires 0 <= i < |fs| =>
        assert fs[i].pat < fs[i]; PField(fs[i].lbl, RenamePatternVar(fs[i].pat, from, to))))
    case _ => p
  }

  /** The substitution still active below binders `bs`. */
  function Active(subs: Subs, bs: seq<Name>): Subs {
    if bs == [] then subs
    else Active(if bs[0] in subs then WithoutKey(subs, bs[0]) else subs, bs[1..])
  }

  datatype PatternRenaming = PatternRenaming(pat: Pattern, rename: Subs, drawn: set<Name>, n: nat)

  /** Give every binder among `bs` that is free in the replacements a fresh name. */
  function RenameClashes(acc: PatternRenaming, bs: seq<Name>, fv: set<Name>): (r: PatternRenaming)
    requires Renaming(acc.rename)
    ensures Renaming(r.rename) && acc.n <= r.n
    decreases |bs|
  {
    if bs == [] then acc
    else if bs[0] in fv then
      var f := FreshName(bs[0], acc.n + 1);
      RenameClashes(PatternRenaming(RenamePatternVar(acc.pat, bs[0], f),
                                    acc.rename[bs[0] := Var(f, "")], acc.drawn + {f}, acc.n + 1),
                    bs[1..], fv)
    else RenameClashes(acc, bs[1..], fv)
  }

  function SubstFV(e: Core, x: Name, r: Core, fv: set<Name>, n: nat): (Core, nat) {
    SubstMany(e, map[x := r], fv, n)
  }

  /** Replace the free unqualified occurrences of every name in `subs`; `fv`
      holds the bare names free in the replacements. */
  function SubstMany(e: Core, subs: Subs, fv: set<Name>, n: nat): (r: (Core, nat))
    ensures n <= r.1
    ensures Renaming(subs) ==> Size(r.0) == Size(e)
    decreases Size(e), 2
  {
    match e
    case Var(x, m) => if m == "" && x in subs then (subs[x], n) else (e, n)
    case Lam(x, ty, b) => var p := SubstBinder(x, b, subs, fv, n); (Lam(p.0, ty, p.1), p.2)
    case Fix(x, b) => var p := SubstBinder(x, b, subs, fv, n); (Fix(p.0, p.1), p.2)
    case Case(s, alts) =>
      var p := SubstAlts(alts, subs, fv, n);
      var q := SubstMany(s, subs, fv, p.1);
      (Case(q.0, p.0), q.1)
    case Bind(c, x, d, b) =>
      var p := SubstMany(c, subs, fv, n);
      var q := SubstBound(x, b, subs, fv, p.1);
      (Bind(p.0, q.0, d, q.1), q.2)
    case RecordLit(_) => SubstData(e, subs, fv, n)
    case RecordProj(_, _) => SubstData(e, subs, fv, n)
    case RecordUpdate(_, _) => SubstData(e, subs, fv, n)
    case VariantLit(_, _) => SubstData(e, subs, fv, n)
    case _ => SubstPlain(e, subs, fv, n)
  }

  predicate Binds(e: Core) { e.Lam? || e.Fix? || e.Case? || e.Bind? }

  predicate IsData(e: Core) { e.RecordLit? || e.RecordProj? || e.RecordUpdate? || e.VariantLit? }

  /** The other formers that bind no term variable. */
  function SubstPlain(e: Core, subs: Subs, fv: set<Name>, n: nat): (r: (Core, nat))
    requires !e.Var? && !Binds(e) && !IsData(e)
    ensures n <= r.1
    ensures Renaming(subs) ==> Size(r.0) == Size(e)
    decreases Size(e), 1
  {
    match e
    case App(f, a) =>
      var p := SubstMany(f, subs, fv, n);
      var q := SubstMany(a, subs, fv, p.1);
      (App(p.0, q.0), q.1)
    case TyApp(x, ty) => var p := SubstMany(x, subs, fv, n); (TyApp(p.0, ty), p.1)
    case TyLam(a, k, b) => var p := SubstMany(b, subs, fv, n); (TyLam(a, k, p.0), p.1)
    case Con(c, m, args) => var p := SubstArgs(args, subs, fv, n); (Con(c, m, p.0), p.1)
    case Pure(x) => var p := SubstMany(x, subs, fv, n); (Pure(p.0), p.1)
    case Thunk(c) => var p := SubstMany(c, subs, fv, n); (Thunk(p.0), p.1)
    case Force(x) => var p := SubstMany(x, subs, fv, n); (Force(p.0), p.1)
    case Merge(l, r, ll, rl) =>
      var p := SubstMany(l, subs, fv, n);
      var q := SubstMany(r, subs, fv, p.1);
      (Merge(p.0, q.0, ll, rl), q.1)
    case PrimOp(op, k, eff, args) => var p := SubstArgs(args, subs, fv, n); (PrimOp(op, k, eff, p.0), p.1)
    case Lit(_) => (e, n)
    case Error => (e, n)
  }

  /** Records and variants. */
  function SubstData(e: Core, subs: Subs, fv: set<Name>, n: nat): (r: (Core, nat))
    requires IsData(e)
    ensures n <= r.1
    ensures Renaming(subs) ==> Size(r.0) == Size(e)
    decreases Size(e), 0
  {
    match e
    case RecordLit(fs) => var p := SubstFields(fs, subs, fv, n); (RecordLit(p.0), p.1)
    case RecordProj(r, l) => var p := SubstMany(r, subs, fv, n); (RecordProj(p.0, l), p.1)
    case RecordUpdate(r, fs) =>
      var p := SubstFields(fs, subs, fv, n);
      var q := SubstMany(r, subs, fv, p.1);
      (RecordUpdate(q.0, p.0), q.1)
    case VariantLit(t, v) => var p := SubstMany(v, subs, fv, n); (VariantLit(t, p.0), p.1)
  }

  /** The body of a `Lam` or `Fix` that binds `x`. When `x` is itself being
      replaced, no capture test is made. */
  function SubstBinder(x: Name, b: Core, subs: Subs, fv: set<Name>, n: nat): (r: (Name, Core, nat))
    ensures n <= r.2
    ensures Renaming(subs) ==> Size(r.1) == Size(b)
    decreases Size(b), 3
  {
    if x in subs then
      var reduced := WithoutKey(subs, x);
      if |reduced| == 0 then (x, b, n)
      else var (b', n') := SubstMany(b, reduced, fv, n); (x, b', n')
    else if x in fv then
      var f := FreshName(x, n + 1);
      var (b1, n1) := SubstMany(b, map[x := Var(f, "")], {f}, n + 1);
      var (b2, n2) := SubstMany(b1, subs, fv, n1);
      (f, b2, n2)
    else
      var (b', n') := SubstMany(b, subs, fv, n); (x, b', n')
  }

  /** The body of a `Bind` that binds `x`. */
  function SubstBound(x: Name, b: Core, subs: Subs, fv: set<Name>, n: nat): (r: (Name, Core, nat))
    ensures n <= r.2
    ensures Renaming(subs) ==> Size(r.1) == Size(b)
    decreases Size(b), 3
  {
    var active := if x in subs then WithoutKey(subs, x) else subs;
    var f := FreshName(x, n + 1);
    var (b1, n1) := if x in fv then SubstMany(b, map[x := Var(f, "")], {f}, n + 1) else (b, n);
    var x' := if x in fv then f else x;
    if |active| == 0 then (x', b1, n1)
    else var (b2, n2) := SubstMany(b1, active, fv, n1); (x', b2, n2)
  }

  function SubstArgs(es: seq<Core>, subs: Subs, fv: set<Name>, n: nat): (r: (seq<Core>, nat))
    ensures n <= r.1 && |r.0| == |es|
    ensures Renaming(subs) ==> SizeArgs(r.0) == SizeArgs(es)
    decreases SizeArgs(es), |es| + 3
  {
    if es == [] then ([], n)
    else
      var (e', n1) := SubstMany(es[0], subs, fv, n);
      var (es', n2) := SubstArgs(es[1..], subs, fv, n1);
      ([e'] + es', n2)
  }

  function SubstFields(fs: seq<Field>, subs: Subs, fv: set<Name>, n: nat): (r: (seq<Field>, nat))
    ensures n <= r.1 && |r.0| == |fs|
    ensures Renaming(subs) ==> SizeFields(r.0) == SizeFields(fs)
    decreases SizeFields(fs), |fs| + 3
  {
    if fs == [] then ([], n)
    else
      var (v', n1) := SubstMany(fs[0].value, subs, fv, n);
      var (fs', n2) := SubstFields(fs[1..], subs, fv, n1);
      ([Field(fs[0].lbl, v')] + fs', n2)
  }

  function SubstAlts(alts: seq<Alt>, subs: Subs, fv: set<Name>, n: nat): (r: (seq<Alt>, nat))
    ensures n <= r.1 && |r.0| == |alts|
    ensures Renaming(subs) ==> SizeAlts(r.0) == SizeAlts(alts)
    decreases SizeAlts(alts), |alts| + 4
  {
    if alts == [] then ([], n)
    else
      var (a', n1) := SubstAlt(alts[0], subs, fv, n);
      var (alts', n2) := SubstAlts(alts[1..], subs, fv, n1);
      ([a'] + alts', n2)
  }

  function SubstAlt(alt: Alt, subs: Subs, fv: set<Name>, n: nat): (r: (Alt, nat))
    ensures n <= r.1
    ensures Renaming(subs) ==> Size(r.0.body) == Size(alt.body)
    decreases Size(alt.body), 3
  {
    var bs := Bindings(alt.pat);
    var active := Active(subs, bs);
    var pr := RenameClashes(PatternRenaming(alt.pat, map[], {}, n), bs, fv);
    var (b1, n1) := if |pr.rename| == 0 then (alt.body, pr.n) else SubstMany(alt.body, pr.rename, pr.drawn, pr.n);
    ActiveKeeps(subs, bs);
    if |active| == 0 then (Alt(pr.pat, b1), n1)
    else
      var (b2, n2) := SubstMany(b1, active, fv, n1);
      (Alt(pr.pat, b2), n2)
  }

  lemma {:induction false} ActiveKeeps(subs: Subs, bs: seq<Name>)
    ensures forall y :: y in Active(subs, bs) <==> y in subs && y !in bs
    ensures forall y :: y in Active(subs, bs) ==> Active(subs, bs)[y] == subs[y]
    decreases |bs|
  {
    if bs != [] {
      var next := if bs[0] in subs then WithoutKey(subs, bs[0]) else subs;
      if bs[0] in subs { WithoutKeyRemoves(subs, bs[0]); }
      ActiveKeeps(next, bs[1..]);
    }
  }

  lemma WithoutKeyRemoves(m: Subs, key: Name)
    requires key in m
    ensures WithoutKey(m, key) == m - {key}
  {
    if |m| <= 1 {
      assert |m.Keys - {key}| == |m.Keys| - 1;
      assert (m - {key}).Keys == {};
    }
  }
}
