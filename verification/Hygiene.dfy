/**
  Hygiene: which names may occur where, and that substitution keeps it so.
 */
module Hygiene {
  import opened CoreIR
  import opened Nameless
  import opened Translate
  import opened FreshNames
  import opened Subst

  // ---- Renaming a pattern variable ----

  function Swap(bs: seq<Name>, x: Name, f: Name): seq<Name> {
    seq(|bs|, i requires 0 <= i < |bs| => if bs[i] == x then f else bs[i])
  }

  lemma {:induction false} FlatSwap(ss: seq<seq<Name>>, ss': seq<seq<Name>>, x: Name, f: Name)
    requires |ss'| == |ss| && forall i :: 0 <= i < |ss| ==> ss'[i] == Swap(ss[i], x, f)
    ensures Flat(ss') == Swap(Flat(ss), x, f)
  {
    if ss != [] {
      FlatSwap(ss[1..], ss'[1..], x, f);
      assert ss'[0] == Swap(ss[0], x, f);
    }
  }

  /** Renaming swaps the name wherever a variable pattern binds it. */
  lemma {:induction false} RenameSwaps(p: Pattern, x: Name, f: Name)
    requires x !in PayloadVars(p)
    ensures Bindings(RenamePatternVar(p, x, f)) == Swap(Bindings(p), x, f)
  {
    match p
    case PCon(c, m, args) =>
      var args' := RenamePatternVar(p, x, f).args;
      forall i | 0 <= i < |args| ensures Bindings(args'[i]) == Swap(Bindings(args[i]), x, f) {
        RenameSwaps(args[i], x, f);
      }
      FlatSwap(seq(|args|, i requires 0 <= i < |args| => Bindings(args[i])),
               seq(|args'|, i requires 0 <= i < |args'| => Bindings(args'[i])), x, f);
    case PRecord(fs) =>
      var fs' := RenamePatternVar(p, x, f).fields;
      forall i | 0 <= i < |fs| ensures Bindings(fs'[i].pat) == Swap(Bindings(fs[i].pat), x, f) {
        assert fs[i].pat < fs[i];
        RenameSwaps(fs[i].pat, x, f);
      }
      FlatSwap(seq(|fs|, i requires 0 <= i < |fs| => Bindings(fs[i].pat)),
               seq(|fs'|, i requires 0 <= i < |fs'| => Bindings(fs'[i].pat)), x, f);
    case _ =>
  }

  lemma {:induction false} RenameKeeps(p: Pattern, x: Name, f: Name)
    ensures ShapeOf(RenamePatternVar(p, x, f)) == ShapeOf(p)
    ensures PayloadVars(RenamePatternVar(p, x, f)) == PayloadVars(p)
  {
    match p
    case PCon(c, m, args) =>
      var args' := RenamePatternVar(p, x, f).args;
      forall i | 0 <= i < |args|
        ensures ShapeOf(args'[i]) == ShapeOf(args[i]) && PayloadVars(args'[i]) == PayloadVars(args[i])
      {
        RenameKeeps(args[i], x, f);
      }
    case PRecord(fs) =>
      var fs' := RenamePatternVar(p, x, f).fields;
      forall i | 0 <= i < |fs|
        ensures ShapeOf(fs'[i].pat) == ShapeOf(fs[i].pat) && PayloadVars(fs'[i].pat) == PayloadVars(fs[i].pat)
      {
        assert fs[i].pat < fs[i];
        RenameKeeps(fs[i].pat, x, f);
      }
    case _ =>
  }

  /** Renaming removes the old name exactly when no label payload binds it. */
  lemma RenamesAwayIff(p: Pattern, x: Name, f: Name)
    requires f != x
    ensures x !in Bindings(RenamePatternVar(p, x, f)) <==> x !in PayloadVars(p)
  {
    if x in PayloadVars(p) {
      RenameKeeps(p, x, f);
      PatternVarsBound(RenamePatternVar(p, x, f));
    } else {
      RenameSwaps(p, x, f);
    }
  }

  // ---- Hygiene ----

  ghost predicate AllOlder(xs: seq<Name>, n: nat) { forall i :: 0 <= i < |xs| ==> Older(xs[i], n) }

  ghost predicate SetOlder(xs: set<Name>, n: nat) { forall x :: x in xs ==> Older(x, n) }

  ghost predicate PatternOk(p: Pattern, avoid: set<Name>) {
    Distinct(Bindings(p)) && PayloadVars(p) !! avoid
  }

  /** What a node shows of itself besides its subterms: the names it binds, the
      shapes it matches, the constructor it builds. */
  datatype View =
    | FunView(x: Name)  // Lam and Fix
    | BindView(x: Name)
    | CaseView(shapes: seq<Shape>, names: seq<seq<Name>>)
    | ConView(con: string, mod: string, count: nat)
    | VarView(x: Name, mod: string)
    | OtherView

  function NamesOf(alts: seq<Alt>): seq<seq<Name>> {
    seq(|alts|, i requires 0 <= i < |alts| => Bindings(alts[i].pat))
  }

  function ViewOf(e: Core): View {
    match e
    case Var(x, m) => VarView(x, m)
    case Lam(x, _, _) => FunView(x)
    case Fix(x, _) => FunView(x)
    case Bind(_, x, _, _) => BindView(x)
    case Case(_, alts) => CaseView(ShapesOf(alts), NamesOf(alts))
    case Con(c, m, args) => ConView(c, m, |args|)
    case _ => OtherView
  }

  /** What to keep out of a term: names that no label payload may bind, and
      nodes that a predicate rejects. */
  datatype Avoid = Avoid(payloads: set<Name>, ok: View -> bool)

  /** `y` is `x` or was drawn for it after `n`. */
  ghost predicate Fresher(x: Name, y: Name, n: nat) { y == x || exists m :: n < m && y == FreshName(x, m) }

  ghost predicate FresherAll(xs: seq<Name>, ys: seq<Name>, n: nat) {
    |xs| == |ys| && forall i :: 0 <= i < |xs| ==> Fresher(xs[i], ys[i], n)
  }

  ghost predicate FresherLists(xss: seq<seq<Name>>, yss: seq<seq<Name>>, n: nat) {
    |xss| == |yss| && forall i :: 0 <= i < |xss| ==> FresherAll(xss[i], yss[i], n)
  }

  /** The predicate does not tell a binder from a name drawn for it after `n`,
      and accepts the variables that accepted binders bind. */
  ghost predicate Stable(ok: View -> bool, n: nat) {
    && ok(OtherView)
    && (forall x, y :: Fresher(x, y, n) && ok(FunView(x)) ==> ok(FunView(y)))
    && (forall x, y :: Fresher(x, y, n) && ok(BindView(x)) ==> ok(BindView(y)))
    && (forall x, y :: Fresher(x, y, n) && ok(VarView(x, "")) ==> ok(VarView(y, "")))
    && (forall ps, xss, yss :: FresherLists(xss, yss, n) && ok(CaseView(ps, xss)) ==> ok(CaseView(ps, yss)))
    && (forall x :: ok(FunView(x)) ==> ok(VarView(x, "")))
    && (forall x :: ok(BindView(x)) ==> ok(VarView(x, "")))
    && (forall ps, xss, i, x :: ok(CaseView(ps, xss)) && 0 <= i < |xss| && x in xss[i] ==> ok(VarView(x, "")))
  }

  lemma StableLater(ok: View -> bool, n: nat, m: nat)
    requires Stable(ok, n) && n <= m
    ensures Stable(ok, m)
  {
    forall x, y | Fresher(x, y, m) ensures Fresher(x, y, n) {}
    forall xss, yss | FresherLists(xss, yss, m) ensures FresherLists(xss, yss, n) {
      forall i | 0 <= i < |xss| ensures FresherAll(xss[i], yss[i], n) { assert FresherAll(xss[i], yss[i], m); }
    }
  }

  ghost predicate Allows(avoid: Avoid, fv: set<Name>, n: nat) { fv <= avoid.payloads && Stable(avoid.ok, n) }

  lemma AllowsLater(avoid: Avoid, fv: set<Name>, n: nat, m: nat)
    requires Allows(avoid, fv, n) && n <= m
    ensures Allows(avoid, fv, m)
  {
    hide Stable;
    StableLater(avoid.ok, n, m);
  }

  /** All names are older than the counter, patterns are linear, no label
      payload binds a name to avoid, and every node is accepted. */
  ghost predicate Hygienic(e: Core, n: nat, avoid: Avoid) {
    && avoid.ok(ViewOf(e))
    && if e.Var? then Older(e.name, n)
      else
        var ss := Scopes(e);
        && (forall i :: 0 <= i < |ss| ==> AllOlder(ss[i].names, n))
        && (forall i :: 0 <= i < |ss| ==> Hygienic(ss[i].body, n, avoid))
        && (e.Case? ==> forall i :: 0 <= i < |e.alts| ==> PatternOk(e.alts[i].pat, avoid.payloads))
  }

  /** Less is to be avoided, as far as names older than `n` go. */
  ghost predicate Laxer(avoid: Avoid, avoid': Avoid, n: nat) {
    && (forall x :: x in avoid'.payloads && Older(x, n) ==> x in avoid.payloads)
    && (forall v :: avoid.ok(v) ==> avoid'.ok(v))
  }

  lemma {:induction false} HygienicLater(e: Core, n: nat, m: nat, avoid: Avoid, avoid': Avoid)
    requires Hygienic(e, n, avoid) && n <= m && Laxer(avoid, avoid', n)
    ensures Hygienic(e, m, avoid')
  {
    if !e.Var? {
      var ss := Scopes(e);
      forall i | 0 <= i < |ss| ensures Hygienic(ss[i].body, m, avoid') {
        HygienicLater(ss[i].body, n, m, avoid, avoid');
      }
      if e.Case? {
        forall i | 0 <= i < |e.alts| ensures PatternOk(e.alts[i].pat, avoid'.payloads) {
          var p := e.alts[i].pat;
          PatternVarsBound(p);
          assert ss[i + 1].names == Bindings(p);
        }
      }
    }
  }

  // ---- The clash-renaming loop of a case alternative ----

  function NewName(rename: Subs, x: Name): Name {
    if x in rename && rename[x].Var? then rename[x].name else x
  }

  /** A renaming of some of `bs` to distinct names drawn after `n0`. */
  ghost predicate FreshRenaming(rename: Subs, drawn: set<Name>, n0: nat, n: nat) {
    && (forall y :: y in rename ==>
         rename[y].Var? && rename[y].mod == "" && rename[y].name in drawn && Fresher(y, rename[y].name, n0))
    && (forall y, z :: y in rename && z in rename && y != z ==> rename[y] != rename[z])
    && (forall f :: f in drawn ==> !Older(f, n0) && Older(f, n))
  }

  function NewNames(rename: Subs, bs: seq<Name>): seq<Name> {
    seq(|bs|, i requires 0 <= i < |bs| => NewName(rename, bs[i]))
  }

  ghost predicate Renames(rename: Subs, bs: seq<Name>, k: nat, fv: set<Name>)
    requires k <= |bs|
  {
    forall y :: y in rename <==> y in bs[..k] && y in fv
  }

  ghost predicate ClashInv(acc: PatternRenaming, p0: Pattern, k: nat, fv: set<Name>, n0: nat) {
    && k <= |Bindings(p0)| && n0 <= acc.n
    && ShapeOf(acc.pat) == ShapeOf(p0)
    && PayloadVars(acc.pat) == PayloadVars(p0)
    && FreshRenaming(acc.rename, acc.drawn, n0, acc.n)
    && Renames(acc.rename, Bindings(p0), k, fv)
    && Bindings(acc.pat) == NewNames(acc.rename, Bindings(p0))
  }

  lemma DrawFresh(rename: Subs, drawn: set<Name>, n0: nat, n: nat, b: Name)
    requires FreshRenaming(rename, drawn, n0, n) && n0 <= n
    ensures FreshRenaming(rename[b := Var(FreshName(b, n + 1), "")], drawn + {FreshName(b, n + 1)}, n0, n + 1)
  {
    var f := FreshName(b, n + 1);
    FreshIsOlder(b, n + 1);
    forall g | g in drawn ensures g != f && Older(g, n + 1) { OlderLater(g, n, n + 1); }
    assert !Older(f, n0) && Fresher(b, f, n0);
  }

  lemma SwapNewNames(rename: Subs, drawn: set<Name>, n0: nat, n: nat, bs: seq<Name>, k: nat, fv: set<Name>, f: Name)
    requires k < |bs| && bs[k] in fv && Distinct(bs) && AllOlder(bs, n0)
    requires FreshRenaming(rename, drawn, n0, n) && Renames(rename, bs, k, fv)
    ensures Swap(NewNames(rename, bs), bs[k], f) == NewNames(rename[bs[k] := Var(f, "")], bs)
    ensures Renames(rename[bs[k] := Var(f, "")], bs, k + 1, fv)
  {
    assert bs[..k + 1] == bs[..k] + [bs[k]];
    forall i | 0 <= i < |bs|
      ensures (if NewName(rename, bs[i]) == bs[k] then f else NewName(rename, bs[i]))
           == NewName(rename[bs[k] := Var(f, "")], bs[i])
    {
      if bs[i] in rename { assert !Older(rename[bs[i]].name, n0); }
    }
  }

  lemma ClashStep(acc: PatternRenaming, p0: Pattern, k: nat, fv: set<Name>, n0: nat)
    requires ClashInv(acc, p0, k, fv, n0)
    requires PatternOk(p0, fv) && AllOlder(Bindings(p0), n0)
    requires k < |Bindings(p0)| && Bindings(p0)[k] in fv
    ensures var b := Bindings(p0)[k];
      var f := FreshName(b, acc.n + 1);
      ClashInv(PatternRenaming(RenamePatternVar(acc.pat, b, f), acc.rename[b := Var(f, "")],
                               acc.drawn + {f}, acc.n + 1), p0, k + 1, fv, n0)
  {
    var b := Bindings(p0)[k];
    var f := FreshName(b, acc.n + 1);
    RenameKeeps(acc.pat, b, f);
    RenameSwaps(acc.pat, b, f);
    DrawFresh(acc.rename, acc.drawn, n0, acc.n, b);
    SwapNewNames(acc.rename, acc.drawn, n0, acc.n, Bindings(p0), k, fv, f);
  }

  lemma RenamesSkip(rename: Subs, bs: seq<Name>, k: nat, fv: set<Name>)
    requires k < |bs| && bs[k] !in fv && Renames(rename, bs, k, fv)
    ensures Renames(rename, bs, k + 1, fv)
  {
    assert bs[..k + 1] == bs[..k] + [bs[k]];
  }

  lemma {:induction false} ClashLoop(acc: PatternRenaming, p0: Pattern, k: nat, fv: set<Name>, n0: nat)
    requires ClashInv(acc, p0, k, fv, n0)
    requires PatternOk(p0, fv) && AllOlder(Bindings(p0), n0)
    ensures ClashInv(RenameClashes(acc, Bindings(p0)[k..], fv), p0, |Bindings(p0)|, fv, n0)
    decreases |Bindings(p0)| - k
  {
    hide Bindings, ShapeOf, PayloadVars, RenamePatternVar, FreshRenaming, NewNames, Renames, PatternOk, AllOlder;
    var bs := Bindings(p0);
    if k < |bs| {
      assert bs[k..][0] == bs[k] && bs[k..][1..] == bs[k + 1..];
      if bs[k] in fv {
        var f := FreshName(bs[k], acc.n + 1);
        ClashStep(acc, p0, k, fv, n0);
        ClashLoop(PatternRenaming(RenamePatternVar(acc.pat, bs[k], f), acc.rename[bs[k] := Var(f, "")],
                                  acc.drawn + {f}, acc.n + 1), p0, k + 1, fv, n0);
      } else {
        RenamesSkip(acc.rename, bs, k, fv);
        ClashLoop(acc, p0, k + 1, fv, n0);
      }
    }
  }

  /** After the loop every binder free in the replacements has a new name. */
  lemma ClashesRenamed(p: Pattern, fv: set<Name>, n: nat)
    requires PatternOk(p, fv) && AllOlder(Bindings(p), n)
    ensures ClashInv(RenameClashes(PatternRenaming(p, map[], {}, n), Bindings(p), fv), p, |Bindings(p)|, fv, n)
  {
    var acc := PatternRenaming(p, map[], {}, n);
    var bs := Bindings(p);
    assert bs == NewNames(acc.rename, bs);
    assert bs[0..] == bs;
    ClashLoop(acc, p, 0, fv, n);
  }

  // ---- Substitution keeps terms hygienic ----

  ghost predicate SubsHygienic(subs: Subs, n: nat, avoid: Avoid) {
    forall y :: y in subs ==> Hygienic(subs[y], n, avoid)
  }

  lemma SubsLater(subs: Subs, n: nat, m: nat, avoid: Avoid)
    requires SubsHygienic(subs, n, avoid) && n <= m
    ensures SubsHygienic(subs, m, avoid)
  {
    forall y | y in subs ensures Hygienic(subs[y], m, avoid) { HygienicLater(subs[y], n, m, avoid, avoid); }
  }

  lemma ContextLater(subs: Subs, fv: set<Name>, n: nat, m: nat, avoid: Avoid)
    requires SubsHygienic(subs, n, avoid) && Allows(avoid, fv, n) && n <= m
    ensures SubsHygienic(subs, m, avoid) && Allows(avoid, fv, m)
  {
    hide Hygienic, Stable;
    SubsLater(subs, n, m, avoid);
    AllowsLater(avoid, fv, n, m);
  }

  ghost predicate ArgsOk(es: seq<Core>, n: nat, avoid: Avoid) {
    forall i :: 0 <= i < |es| ==> Hygienic(es[i], n, avoid)
  }

  ghost predicate FieldsOk(fs: seq<Field>, n: nat, avoid: Avoid) {
    forall i :: 0 <= i < |fs| ==> Hygienic(fs[i].value, n, avoid)
  }

  ghost predicate AltOk(alt: Alt, n: nat, avoid: Avoid) {
    PatternOk(alt.pat, avoid.payloads) && AllOlder(Bindings(alt.pat), n) && Hygienic(alt.body, n, avoid)
  }

  ghost predicate AltsOk(alts: seq<Alt>, n: nat, avoid: Avoid) {
    forall i :: 0 <= i < |alts| ==> AltOk(alts[i], n, avoid)
  }

  lemma ArgsLater(es: seq<Core>, n: nat, m: nat, avoid: Avoid)
    requires ArgsOk(es, n, avoid) && n <= m
    ensures ArgsOk(es, m, avoid)
  {
    forall i | 0 <= i < |es| ensures Hygienic(es[i], m, avoid) { HygienicLater(es[i], n, m, avoid, avoid); }
  }

  lemma FieldsLater(fs: seq<Field>, n: nat, m: nat, avoid: Avoid)
    requires FieldsOk(fs, n, avoid) && n <= m
    ensures FieldsOk(fs, m, avoid)
  {
    forall i | 0 <= i < |fs| ensures Hygienic(fs[i].value, m, avoid) {
      HygienicLater(fs[i].value, n, m, avoid, avoid);
    }
  }

  lemma AltsLater(alts: seq<Alt>, n: nat, m: nat, avoid: Avoid)
    requires AltsOk(alts, n, avoid) && n <= m
    ensures AltsOk(alts, m, avoid)
  {
    forall i | 0 <= i < |alts| ensures AltOk(alts[i], m, avoid) {
      HygienicLater(alts[i].body, n, m, avoid, avoid);
    }
  }

  // What hygiene of a node says about its parts.

  function Kids(e: Core): seq<Core> {
    var ss := Scopes(e);
    seq(|ss|, i requires 0 <= i < |ss| => ss[i].body)
  }

  function Values(fs: seq<Field>): seq<Core> { seq(|fs|, i requires 0 <= i < |fs| => fs[i].value) }

  /** The subterms of the formers that bind nothing. */
  lemma PlainKids(e: Core)
    requires !e.Var? && !Binds(e)
    ensures match e
      case App(f, a) => Kids(e) == [f, a]
      case TyApp(x, _) => Kids(e) == [x]
      case TyLam(_, _, b) => Kids(e) == [b]
      case Con(_, _, args) => Kids(e) == args
      case Pure(x) => Kids(e) == [x]
      case Thunk(c) => Kids(e) == [c]
      case Force(x) => Kids(e) == [x]
      case Merge(l, r, _, _) => Kids(e) == [l, r]
      case PrimOp(_, _, _, args) => Kids(e) == args
      case RecordLit(fs) => Kids(e) == Values(fs)
      case RecordProj(r, _) => Kids(e) == [r]
      case RecordUpdate(r, fs) => Kids(e) == [r] + Values(fs)
      case VariantLit(_, v) => Kids(e) == [v]
      case _ => Kids(e) == []
  {
  }

  lemma PlainOk(e: Core, n: nat, avoid: Avoid)
    requires !e.Var? && !Binds(e)
    ensures Hygienic(e, n, avoid) <==> avoid.ok(ViewOf(e)) && ArgsOk(Kids(e), n, avoid)
  {
    hide Hygienic, Scopes;
    PlainNames(e);
    var ss, ks := Scopes(e), Kids(e);
    assert forall i :: 0 <= i < |ss| ==> ks[i] == ss[i].body;
    HygienicNode(e, n, avoid);
  }

  lemma PlainNames(e: Core)
    requires !e.Var? && !Binds(e)
    ensures forall i :: 0 <= i < |Scopes(e)| ==> Scopes(e)[i].names == []
  {
  }

  lemma HygienicNode(e: Core, n: nat, avoid: Avoid)
    requires !e.Var? && !e.Case?
    ensures Hygienic(e, n, avoid)
       <==> avoid.ok(ViewOf(e)) && forall i :: 0 <= i < |Scopes(e)| ==> AllOlder(Scopes(e)[i].names, n) && Hygienic(Scopes(e)[i].body, n, avoid)
  {
  }

  lemma LamOk(x: Name, ty: Ty, b: Core, n: nat, avoid: Avoid)
    ensures Hygienic(Lam(x, ty, b), n, avoid) <==> avoid.ok(FunView(x)) && Older(x, n) && Hygienic(b, n, avoid)
  {
    assert Scopes(Lam(x, ty, b))[0] == Under([x], {x}, b);
    assert AllOlder([x], n) <==> Older([x][0], n);
  }

  lemma FixOk(x: Name, b: Core, n: nat, avoid: Avoid)
    ensures Hygienic(Fix(x, b), n, avoid) <==> avoid.ok(FunView(x)) && Older(x, n) && Hygienic(b, n, avoid)
  {
    assert Scopes(Fix(x, b))[0] == Under([x], {x}, b);
    assert AllOlder([x], n) <==> Older([x][0], n);
  }

  lemma BindOk(c: Core, x: Name, d: bool, b: Core, n: nat, avoid: Avoid)
    ensures Hygienic(Bind(c, x, d, b), n, avoid)
       <==> avoid.ok(BindView(x)) && Hygienic(c, n, avoid) && Older(x, n) && Hygienic(b, n, avoid)
  {
    var ss := Scopes(Bind(c, x, d, b));
    assert ss[0] == Plain(c) && ss[1] == Under([x], {x}, b);
    assert AllOlder([x], n) <==> Older([x][0], n);
  }

  lemma CaseOk(s: Core, alts: seq<Alt>, n: nat, avoid: Avoid)
    ensures Hygienic(Case(s, alts), n, avoid)
       <==> avoid.ok(CaseView(ShapesOf(alts), NamesOf(alts))) && Hygienic(s, n, avoid) && AltsOk(alts, n, avoid)
  {
    hide Bindings, Scopes;
    var e := Case(s, alts);
    var ss := Scopes(e);
    CaseScopes(e);
    if Hygienic(e, n, avoid) {
      forall i | 0 <= i < |alts| ensures AltOk(alts[i], n, avoid) { assert Hygienic(ss[i + 1].body, n, avoid); }
    }
  }

  lemma {:induction false} SubstHygienic(e: Core, subs: Subs, fv: set<Name>, n: nat, avoid: Avoid)
    requires Hygienic(e, n, avoid) && SubsHygienic(subs, n, avoid) && Allows(avoid, fv, n)
    ensures var r := SubstMany(e, subs, fv, n); Hygienic(r.0, r.1, avoid)
    decreases Size(e), 2
  {
    if e.Var? {
      if e.mod != "" || e.name !in subs { HygienicLater(e, n, n, avoid, avoid); }
    } else {
      NodeHygienic(e, subs, fv, n, avoid);
    }
  }

  lemma {:induction false} NodeHygienic(e: Core, subs: Subs, fv: set<Name>, n: nat, avoid: Avoid)
    requires !e.Var?
    requires Hygienic(e, n, avoid) && SubsHygienic(subs, n, avoid) && Allows(avoid, fv, n)
    ensures var r := SubstMany(e, subs, fv, n); Hygienic(r.0, r.1, avoid)
    decreases Size(e), 1
  {
    hide Hygienic, Stable;
    if e.Lam? {
      var p := SubstBinder(e.param, e.body, subs, fv, n);
      LamOk(e.param, e.paramType, e.body, n, avoid);
      AcceptsFresher(avoid.ok, n, e.param, e.param);
      BinderHygienic(e.param, e.body, subs, fv, n, avoid);
      AcceptsFresher(avoid.ok, n, e.param, p.0);
      LamOk(p.0, e.paramType, p.1, p.2, avoid);
    } else if e.Fix? {
      var p := SubstBinder(e.name, e.body, subs, fv, n);
      FixOk(e.name, e.body, n, avoid);
      AcceptsFresher(avoid.ok, n, e.name, e.name);
      BinderHygienic(e.name, e.body, subs, fv, n, avoid);
      AcceptsFresher(avoid.ok, n, e.name, p.0);
      FixOk(p.0, p.1, p.2, avoid);
    } else if e.Case? {
      CaseHygienic(e, subs, fv, n, avoid);
    } else if e.Bind? {
      BindHygienic(e, subs, fv, n, avoid);
    } else if IsData(e) {
      DataHygienic(e, subs, fv, n, avoid);
    } else {
      PlainHygienic(e, subs, fv, n, avoid);
    }
  }

  lemma {:induction false} BindHygienic(e: Core, subs: Subs, fv: set<Name>, n: nat, avoid: Avoid)
    requires e.Bind?
    requires Hygienic(e, n, avoid) && SubsHygienic(subs, n, avoid) && Allows(avoid, fv, n)
    ensures var r := SubstMany(e, subs, fv, n); Hygienic(r.0, r.1, avoid)
    decreases Size(e), 0
  {
    hide Hygienic, Stable;
    var p := SubstMany(e.comp, subs, fv, n);
    var q := SubstBound(e.bvar, e.body, subs, fv, p.1);
    BindOk(e.comp, e.bvar, e.isDiscard, e.body, n, avoid);
    SubstHygienic(e.comp, subs, fv, n, avoid);
    ContextLater(subs, fv, n, p.1, avoid);
    HygienicLater(e.body, n, p.1, avoid, avoid);
    OlderLater(e.bvar, n, p.1);
    AcceptsFresher(avoid.ok, p.1, e.bvar, e.bvar);
    BoundHygienic(e.bvar, e.body, subs, fv, p.1, avoid);
    AcceptsFresher(avoid.ok, p.1, e.bvar, q.0);
    HygienicLater(p.0, p.1, q.2, avoid, avoid);
    BindOk(p.0, q.0, e.isDiscard, q.1, q.2, avoid);
  }

  lemma {:induction false} PairHygienic(a: Core, b: Core, subs: Subs, fv: set<Name>, n: nat, avoid: Avoid)
    requires Hygienic(a, n, avoid) && Hygienic(b, n, avoid) && SubsHygienic(subs, n, avoid) && Allows(avoid, fv, n)
    ensures var p := SubstMany(a, subs, fv, n); var q := SubstMany(b, subs, fv, p.1);
      Hygienic(p.0, q.1, avoid) && Hygienic(q.0, q.1, avoid)
    decreases Size(a) + Size(b), 3
  {
    hide Hygienic, Stable;
    var p := SubstMany(a, subs, fv, n);
    var q := SubstMany(b, subs, fv, p.1);
    SubstHygienic(a, subs, fv, n, avoid);
    ContextLater(subs, fv, n, p.1, avoid);
    HygienicLater(b, n, p.1, avoid, avoid);
    SubstHygienic(b, subs, fv, p.1, avoid);
    HygienicLater(p.0, p.1, q.1, avoid, avoid);
  }

  lemma {:induction false} PlainHygienic(e: Core, subs: Subs, fv: set<Name>, n: nat, avoid: Avoid)
    requires !e.Var? && !Binds(e) && !IsData(e)
    requires Hygienic(e, n, avoid) && SubsHygienic(subs, n, avoid) && Allows(avoid, fv, n)
    ensures var r := SubstPlain(e, subs, fv, n); Hygienic(r.0, r.1, avoid)
    decreases Size(e), 0
  {
    hide Hygienic, SubstMany, Kids, Scopes, Stable;
    var r := SubstPlain(e, subs, fv, n);
    PlainOk(e, n, avoid);
    PlainOk(r.0, r.1, avoid);
    PlainKids(e);
    PlainKids(r.0);
    var ks := Kids(e);
    match e
    case App(f, a) => assert ks[0] == f && ks[1] == a; PairHygienic(f, a, subs, fv, n, avoid);
    case TyApp(x, ty) => assert ks[0] == x; SubstHygienic(x, subs, fv, n, avoid);
    case TyLam(a, k, b) => assert ks[0] == b; SubstHygienic(b, subs, fv, n, avoid);
    case Con(c, m, args) => assert ks == args; ArgsHygienic(args, subs, fv, n, avoid);
    case Pure(x) => assert ks[0] == x; SubstHygienic(x, subs, fv, n, avoid);
    case Thunk(c) => assert ks[0] == c; SubstHygienic(c, subs, fv, n, avoid);
    case Force(x) => assert ks[0] == x; SubstHygienic(x, subs, fv, n, avoid);
    case Merge(l, t, ll, rl) => assert ks[0] == l && ks[1] == t; PairHygienic(l, t, subs, fv, n, avoid);
    case PrimOp(op, k, eff, args) => assert ks == args; ArgsHygienic(args, subs, fv, n, avoid);
    case Lit(_) =>
    case Error =>
  }

  lemma {:induction false} DataHygienic(e: Core, subs: Subs, fv: set<Name>, n: nat, avoid: Avoid)
    requires IsData(e)
    requires Hygienic(e, n, avoid) && SubsHygienic(subs, n, avoid) && Allows(avoid, fv, n)
    ensures var r := SubstData(e, subs, fv, n); Hygienic(r.0, r.1, avoid)
    decreases Size(e), 0
  {
    hide Hygienic, SubstMany, Kids, Scopes, Stable;
    var r := SubstData(e, subs, fv, n);
    PlainOk(e, n, avoid);
    PlainOk(r.0, r.1, avoid);
    PlainKids(e);
    PlainKids(r.0);
    var ks := Kids(e);
    match e
    case RecordLit(fs) =>
      forall i | 0 <= i < |fs| ensures Hygienic(fs[i].value, n, avoid) { assert ks[i] == fs[i].value; }
      FieldsHygienic(fs, subs, fv, n, avoid);
    case RecordProj(x, l) => assert ks[0] == x; SubstHygienic(x, subs, fv, n, avoid);
    case RecordUpdate(x, fs) =>
      assert ks[0] == x;
      forall i | 0 <= i < |fs| ensures Hygienic(fs[i].value, n, avoid) { assert ks[i + 1] == fs[i].value; }
      UpdateHygienic(x, fs, subs, fv, n, avoid);
    case VariantLit(t, v) => assert ks[0] == v; SubstHygienic(v, subs, fv, n, avoid);
  }

  lemma {:induction false} UpdateHygienic(x: Core, fs: seq<Field>, subs: Subs, fv: set<Name>, n: nat, avoid: Avoid)
    requires Hygienic(x, n, avoid) && FieldsOk(fs, n, avoid) && SubsHygienic(subs, n, avoid) && Allows(avoid, fv, n)
    ensures var p := SubstFields(fs, subs, fv, n); var q := SubstMany(x, subs, fv, p.1);
      FieldsOk(p.0, q.1, avoid) && Hygienic(q.0, q.1, avoid)
    decreases Size(x) + SizeFields(fs), |fs| + 4
  {
    hide Hygienic, SubstMany, Stable;
    var p := SubstFields(fs, subs, fv, n);
    var q := SubstMany(x, subs, fv, p.1);
    FieldsHygienic(fs, subs, fv, n, avoid);
    ContextLater(subs, fv, n, p.1, avoid);
    HygienicLater(x, n, p.1, avoid, avoid);
    SubstHygienic(x, subs, fv, p.1, avoid);
    FieldsLater(p.0, p.1, q.1, avoid);
  }

  lemma {:induction false} ArgsHygienic(es: seq<Core>, subs: Subs, fv: set<Name>, n: nat, avoid: Avoid)
    requires ArgsOk(es, n, avoid) && SubsHygienic(subs, n, avoid) && Allows(avoid, fv, n)
    ensures ArgsOk(SubstArgs(es, subs, fv, n).0, SubstArgs(es, subs, fv, n).1, avoid)
    decreases SizeArgs(es), |es| + 3
  {
    hide Hygienic, Stable;
    if es != [] {
      var p := SubstMany(es[0], subs, fv, n);
      var q := SubstArgs(es[1..], subs, fv, p.1);
      SubstHygienic(es[0], subs, fv, n, avoid);
      ContextLater(subs, fv, n, p.1, avoid);
      ArgsLater(es[1..], n, p.1, avoid);
      ArgsHygienic(es[1..], subs, fv, p.1, avoid);
      HygienicLater(p.0, p.1, q.1, avoid, avoid);
    }
  }

  lemma {:induction false} FieldsHygienic(fs: seq<Field>, subs: Subs, fv: set<Name>, n: nat, avoid: Avoid)
    requires FieldsOk(fs, n, avoid) && SubsHygienic(subs, n, avoid) && Allows(avoid, fv, n)
    ensures FieldsOk(SubstFields(fs, subs, fv, n).0, SubstFields(fs, subs, fv, n).1, avoid)
    decreases SizeFields(fs), |fs| + 3
  {
    hide Hygienic, Stable;
    if fs != [] {
      var p := SubstMany(fs[0].value, subs, fv, n);
      var q := SubstFields(fs[1..], subs, fv, p.1);
      SubstHygienic(fs[0].value, subs, fv, n, avoid);
      ContextLater(subs, fv, n, p.1, avoid);
      FieldsLater(fs[1..], n, p.1, avoid);
      FieldsHygienic(fs[1..], subs, fv, p.1, avoid);
      HygienicLater(p.0, p.1, q.1, avoid, avoid);
    }
  }

  lemma RenamingHygienic(rename: Subs, drawn: set<Name>, n0: nat, n: nat, avoid: Avoid)
    requires FreshRenaming(rename, drawn, n0, n) && Stable(avoid.ok, n0)
    requires forall y :: y in rename ==> avoid.ok(VarView(y, ""))
    ensures SubsHygienic(rename, n, avoid)
  {
    forall y | y in rename ensures Hygienic(rename[y], n, avoid) { assert Fresher(y, rename[y].name, n0); }
  }

  function Plus(avoid: Avoid, xs: set<Name>): Avoid { Avoid(avoid.payloads + xs, avoid.ok) }

  /** A renaming substitution keeps its body hygienic. */
  lemma {:induction false} RenameHygienic(b: Core, rename: Subs, drawn: set<Name>, n0: nat, n: nat, avoid: Avoid)
    requires Hygienic(b, n0, avoid) && n0 <= n && FreshRenaming(rename, drawn, n0, n) && Stable(avoid.ok, n0)
    requires forall y :: y in rename ==> avoid.ok(VarView(y, ""))
    ensures var r := SubstMany(b, rename, drawn, n); Hygienic(r.0, r.1, avoid)
    decreases Size(b), 3
  {
    hide Hygienic, Stable;
    var more := Plus(avoid, drawn);
    HygienicLater(b, n0, n, avoid, more);
    RenamingHygienic(rename, drawn, n0, n, more);
    StableLater(avoid.ok, n0, n);
    SubstHygienic(b, rename, drawn, n, more);
    var r := SubstMany(b, rename, drawn, n);
    HygienicLater(r.0, r.1, r.1, more, avoid);
  }

  lemma OneFresh(x: Name, n: nat)
    ensures FreshRenaming(map[x := Var(FreshName(x, n + 1), "")], {FreshName(x, n + 1)}, n, n + 1)
  {
    DrawFresh(map[], {}, n, n, x);
    var f := FreshName(x, n + 1);
    assert {} + {f} == {f} && map[][x := Var(f, "")] == map[x := Var(f, "")];
  }

  /** Renaming one binder to the next fresh name. */
  lemma {:induction false} RenameOneHygienic(x: Name, b: Core, n: nat, avoid: Avoid)
    requires Hygienic(b, n, avoid) && Stable(avoid.ok, n) && avoid.ok(VarView(x, ""))
    ensures var f := FreshName(x, n + 1);
      var r := SubstMany(b, map[x := Var(f, "")], {f}, n + 1);
      Older(f, r.1) && Hygienic(r.0, r.1, avoid)
    decreases Size(b), 4
  {
    hide Hygienic, SubstMany, Stable;
    var f := FreshName(x, n + 1);
    var r := SubstMany(b, map[x := Var(f, "")], {f}, n + 1);
    OneFresh(x, n);
    FreshIsOlder(x, n + 1);
    OlderLater(f, n + 1, r.1);
    RenameHygienic(b, map[x := Var(f, "")], {f}, n, n + 1, avoid);
  }

  lemma {:induction false} BinderHygienic(x: Name, b: Core, subs: Subs, fv: set<Name>, n: nat, avoid: Avoid)
    requires Older(x, n) && Hygienic(b, n, avoid) && SubsHygienic(subs, n, avoid) && Allows(avoid, fv, n)
    requires avoid.ok(VarView(x, ""))
    ensures var r := SubstBinder(x, b, subs, fv, n); Older(r.0, r.2) && Hygienic(r.1, r.2, avoid) && Fresher(x, r.0, n)
    decreases Size(b), 5
  {
    hide Hygienic, SubstMany, Stable;
    if x in subs {
      if |WithoutKey(subs, x)| != 0 { SubstHygienic(b, WithoutKey(subs, x), fv, n, avoid); }
    } else if x in fv {
      var f := FreshName(x, n + 1);
      var r1 := SubstMany(b, map[x := Var(f, "")], {f}, n + 1);
      RenameOneHygienic(x, b, n, avoid);
      ContextLater(subs, fv, n, r1.1, avoid);
      SubstHygienic(r1.0, subs, fv, r1.1, avoid);
    } else {
      SubstHygienic(b, subs, fv, n, avoid);
    }
  }

  lemma {:induction false} BoundHygienic(x: Name, b: Core, subs: Subs, fv: set<Name>, n: nat, avoid: Avoid)
    requires Older(x, n) && Hygienic(b, n, avoid) && SubsHygienic(subs, n, avoid) && Allows(avoid, fv, n)
    requires avoid.ok(VarView(x, ""))
    ensures var r := SubstBound(x, b, subs, fv, n); Older(r.0, r.2) && Hygienic(r.1, r.2, avoid) && Fresher(x, r.0, n)
    decreases Size(b), 5
  {
    hide Hygienic, SubstMany, Stable;
    var active := if x in subs then WithoutKey(subs, x) else subs;
    if x in fv {
      var f := FreshName(x, n + 1);
      var r1 := SubstMany(b, map[x := Var(f, "")], {f}, n + 1);
      RenameOneHygienic(x, b, n, avoid);
      ContextLater(subs, fv, n, r1.1, avoid);
      if |active| != 0 { SubstHygienic(r1.0, active, fv, r1.1, avoid); }
    } else {
      if |active| != 0 { SubstHygienic(b, active, fv, n, avoid); }
    }
  }

  lemma RenamedPatternOk(p: Pattern, fv: set<Name>, n: nat, ps: set<Name>)
    requires PatternOk(p, ps) && AllOlder(Bindings(p), n) && fv <= ps
    ensures var pr := RenameClashes(PatternRenaming(p, map[], {}, n), Bindings(p), fv);
      && PatternOk(pr.pat, ps) && AllOlder(Bindings(pr.pat), pr.n) && FreshRenaming(pr.rename, pr.drawn, n, pr.n)
      && ShapeOf(pr.pat) == ShapeOf(p) && FresherAll(Bindings(p), Bindings(pr.pat), n)
      && forall y :: y in pr.rename ==> y in Bindings(p)
  {
    hide ShapeOf, PayloadVars, RenameClashes, Bindings;
    ClashesRenamed(p, fv, n);
    var bs, pr := Bindings(p), RenameClashes(PatternRenaming(p, map[], {}, n), Bindings(p), fv);
    NewNamesDistinct(pr.rename, pr.drawn, n, pr.n, bs);
    assert bs[..|bs|] == bs;
  }

  lemma NewNamesDistinct(rename: Subs, drawn: set<Name>, n0: nat, n: nat, bs: seq<Name>)
    requires FreshRenaming(rename, drawn, n0, n) && n0 <= n && Distinct(bs) && AllOlder(bs, n0)
    ensures Distinct(NewNames(rename, bs)) && AllOlder(NewNames(rename, bs), n)
  {
    forall i, j | 0 <= i < j < |bs| ensures NewName(rename, bs[i]) != NewName(rename, bs[j]) {
      if bs[i] in rename { assert !Older(rename[bs[i]].name, n0); }
      if bs[j] in rename { assert !Older(rename[bs[j]].name, n0); }
    }
  }

  /** The same pattern up to names drawn after `n`. */
  ghost predicate SameAltView(alt: Alt, alt': Alt, n: nat) {
    ShapeOf(alt'.pat) == ShapeOf(alt.pat) && FresherAll(Bindings(alt.pat), Bindings(alt'.pat), n)
  }

  lemma SameViews(alts: seq<Alt>, alts': seq<Alt>, n: nat)
    requires |alts| == |alts'| && forall i :: 0 <= i < |alts| ==> SameAltView(alts[i], alts'[i], n)
    ensures ShapesOf(alts') == ShapesOf(alts) && FresherLists(NamesOf(alts), NamesOf(alts'), n)
  {
    hide ShapeOf, Bindings, FresherAll;
    forall i | 0 <= i < |alts| ensures ShapeOf(alts'[i].pat) == ShapeOf(alts[i].pat) { assert SameAltView(alts[i], alts'[i], n); }
    forall i | 0 <= i < |alts| ensures FresherAll(NamesOf(alts)[i], NamesOf(alts')[i], n) { assert SameAltView(alts[i], alts'[i], n); }
  }

  lemma SameAltSooner(alt: Alt, alt': Alt, n: nat, m: nat)
    requires SameAltView(alt, alt', m) && n <= m
    ensures SameAltView(alt, alt', n)
  {
    hide ShapeOf, Bindings;
    forall x, y | Fresher(x, y, m) ensures Fresher(x, y, n) {}
  }

  lemma {:induction false} AltHygienic(alt: Alt, subs: Subs, fv: set<Name>, n: nat, avoid: Avoid)
    requires AltOk(alt, n, avoid) && SubsHygienic(subs, n, avoid) && Allows(avoid, fv, n)
    requires forall x :: x in Bindings(alt.pat) ==> avoid.ok(VarView(x, ""))
    ensures var r := SubstAlt(alt, subs, fv, n); AltOk(r.0, r.1, avoid) && SameAltView(alt, r.0, n)
    decreases Size(alt.body), 4
  {
    hide Hygienic, SubstMany, Stable, Bindings, ShapeOf, RenameClashes;
    var bs := Bindings(alt.pat);
    var active := Active(subs, bs);
    var pr := RenameClashes(PatternRenaming(alt.pat, map[], {}, n), bs, fv);
    RenamedPatternOk(alt.pat, fv, n, avoid.payloads);
    ActiveKeeps(subs, bs);
    var r1 := if |pr.rename| == 0 then (alt.body, pr.n) else SubstMany(alt.body, pr.rename, pr.drawn, pr.n);
    if |pr.rename| == 0 {
      HygienicLater(alt.body, n, pr.n, avoid, avoid);
    } else {
      RenameHygienic(alt.body, pr.rename, pr.drawn, n, pr.n, avoid);
    }
    ContextLater(subs, fv, n, r1.1, avoid);
    if |active| != 0 { SubstHygienic(r1.0, active, fv, r1.1, avoid); }
  }

  ghost predicate BindersAccepted(alts: seq<Alt>, avoid: Avoid) {
    forall i, x :: 0 <= i < |alts| && x in Bindings(alts[i].pat) ==> avoid.ok(VarView(x, ""))
  }

  lemma {:induction false} AltsHygienic(alts: seq<Alt>, subs: Subs, fv: set<Name>, n: nat, avoid: Avoid)
    requires AltsOk(alts, n, avoid) && SubsHygienic(subs, n, avoid) && Allows(avoid, fv, n) && BindersAccepted(alts, avoid)
    ensures var r := SubstAlts(alts, subs, fv, n);
      AltsOk(r.0, r.1, avoid) && forall i :: 0 <= i < |alts| ==> SameAltView(alts[i], r.0[i], n)
    decreases SizeAlts(alts), |alts| + 4
  {
    hide Hygienic, Stable, SubstAlt, SameAltView, Bindings;
    if alts != [] {
      var p := SubstAlt(alts[0], subs, fv, n);
      var q := SubstAlts(alts[1..], subs, fv, p.1);
      AltHygienic(alts[0], subs, fv, n, avoid);
      ContextLater(subs, fv, n, p.1, avoid);
      AltsLater(alts[1..], n, p.1, avoid);
      AltsHygienic(alts[1..], subs, fv, p.1, avoid);
      AltsLater([p.0], p.1, q.1, avoid);
      assert AltOk([p.0][0], q.1, avoid);
      var r := SubstAlts(alts, subs, fv, n).0;
      assert r == [p.0] + q.0;
      forall i | 0 <= i < |alts| ensures SameAltView(alts[i], r[i], n) {
        if i > 0 { SameAltSooner(alts[1..][i - 1], q.0[i - 1], n, p.1); }
      }
    }
  }

  lemma AcceptedBinders(alts: seq<Alt>, avoid: Avoid, n: nat)
    requires Stable(avoid.ok, n) && avoid.ok(CaseView(ShapesOf(alts), NamesOf(alts)))
    ensures BindersAccepted(alts, avoid)
  {
    hide Bindings;
    forall i, x | 0 <= i < |alts| && x in Bindings(alts[i].pat) ensures avoid.ok(VarView(x, "")) {
      assert x in NamesOf(alts)[i];
    }
  }

  lemma {:induction false} CaseHygienic(e: Core, subs: Subs, fv: set<Name>, n: nat, avoid: Avoid)
    requires e.Case?
    requires Hygienic(e, n, avoid) && SubsHygienic(subs, n, avoid) && Allows(avoid, fv, n)
    ensures var r := SubstMany(e, subs, fv, n); Hygienic(r.0, r.1, avoid)
    decreases Size(e), 0
  {
    hide Hygienic, Stable;
    var p := SubstAlts(e.alts, subs, fv, n);
    var q := SubstMany(e.scrutinee, subs, fv, p.1);
    CaseOk(e.scrutinee, e.alts, n, avoid);
    AcceptedBinders(e.alts, avoid, n);
    AltsHygienic(e.alts, subs, fv, n, avoid);
    SameViews(e.alts, p.0, n);
    AcceptsCase(avoid.ok, n, e.alts, p.0);
    ContextLater(subs, fv, n, p.1, avoid);
    HygienicLater(e.scrutinee, n, p.1, avoid, avoid);
    SubstHygienic(e.scrutinee, subs, fv, p.1, avoid);
    AltsLater(p.0, p.1, q.1, avoid);
    CaseOk(q.0, p.0, q.1, avoid);
  }

  lemma AcceptsCase(ok: View -> bool, n: nat, alts: seq<Alt>, alts': seq<Alt>)
    requires Stable(ok, n) && ShapesOf(alts') == ShapesOf(alts) && FresherLists(NamesOf(alts), NamesOf(alts'), n)
    requires ok(CaseView(ShapesOf(alts), NamesOf(alts)))
    ensures ok(CaseView(ShapesOf(alts'), NamesOf(alts')))
  {
  }

  /** A name drawn for an accepted binder is accepted in its place. */
  lemma AcceptsFresher(ok: View -> bool, n: nat, x: Name, y: Name)
    requires Stable(ok, n) && Fresher(x, y, n)
    ensures ok(FunView(x)) ==> ok(FunView(y)) && ok(VarView(x, ""))
    ensures ok(BindView(x)) ==> ok(BindView(y)) && ok(VarView(x, ""))
  {
  }
}
