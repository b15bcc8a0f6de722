/**
  Named substitution is nameless substitution.
 */
module SubstCorrect {
  import opened CoreIR
  import opened Nameless
  import opened Translate
  import opened FreshNames
  import opened Subst
  import opened Hygiene

  /** `fv` holds every name free in a replacement. */
  ghost predicate Covers(fv: set<Name>, subs: Subs) {
    forall y :: y in subs ==> FreeNames(subs[y]) <= fv
  }

  /** No replaced name is free in the replacement of another one. */
  ghost predicate CrossFree(subs: Subs) {
    forall x, y :: x in subs && y in subs && x != y ==> !IsLocal(subs[y], x)
  }

  /** The replaced names that are free in the replacement of another one. */
  ghost function Crossed(subs: Subs): set<Name> {
    set x | x in subs && exists y :: y in subs && y != x && IsLocal(subs[y], x)
  }

  lemma CrossedNone(subs: Subs)
    ensures CrossFree(subs) <==> Crossed(subs) == {}
  {
    hide IsLocal;
    if !CrossFree(subs) {
      var x, y :| x in subs && y in subs && x != y && IsLocal(subs[y], x);
      assert x in Crossed(subs);
    }
  }

  /** No `Lam` or `Fix` binds a name in `fs`. */
  ghost function FunsOutside(fs: set<Name>): View -> bool { (v: View) => v.FunView? ==> v.x !in fs }

  lemma FunsStable(fs: set<Name>, n: nat)
    requires SetOlder(fs, n)
    ensures Stable(FunsOutside(fs), n)
  {
    forall x, y | Fresher(x, y, n) && x !in fs ensures y !in fs {
      if y != x {
        var m :| n < m && y == FreshName(x, m);
        assert !Older(y, n);
      }
    }
  }

  /** What a body must avoid for `subs` to come out right in it: label payloads
      among the names to avoid, and functions that bind a crossed name. */
  ghost function Shun(subs: Subs, fv: set<Name>): Avoid { Avoid(fv, FunsOutside(Crossed(subs))) }

  ghost predicate Ready(subs: Subs, fv: set<Name>, n: nat) {
    Covers(fv, subs) && SetOlder(subs.Keys, n) && SetOlder(fv, n)
  }

  /** The environment in which each replaced name stands for its replacement. */
  function Applied(env: Env, subs: Subs): Env {
    env + map y | y in subs :: Trans(subs[y], env)
  }

  lemma LocalIsCovered(fv: set<Name>, subs: Subs, y: Name, x: Name)
    requires Covers(fv, subs) && y in subs && IsLocal(subs[y], x)
    ensures x in fv
  {
    LocalsAreFree(subs[y], x);
    assert VarKey("", x).name in FreeNames(subs[y]);
  }

  lemma ExtendNil(env: Env)
    ensures Extend(env, []) == env
  {
    forall x | x in env ensures Extend(env, [])[x] == env[x] { ShiftZero(env[x], 0); }
  }

  lemma {:induction false} IndexOfDistinct(xs: seq<Name>, i: nat)
    requires Distinct(xs) && i < |xs|
    ensures IndexOf(xs, xs[i]) == |xs| - 1 - i
  {
    if i < |xs| - 1 {
      var ys := xs[..|xs| - 1];
      assert ys[i] == xs[i];
      IndexOfDistinct(ys, i);
    }
  }

  /** The names a binder group has after renaming its clashes. */
  ghost predicate Rebound(xs: seq<Name>, xs': seq<Name>, rename: Subs) {
    && |xs'| == |xs| && Distinct(xs) && Distinct(xs')
    && (forall y :: y in rename ==> y in xs)
    && (forall i :: 0 <= i < |xs| ==>
         xs'[i] == NewName(rename, xs[i]) && (xs[i] in rename ==> rename[xs[i]] == Var(xs'[i], "")))
  }

  /** The part of `subs` that passes the binders `xs`. */
  ghost predicate PassesBinders(active: Subs, subs: Subs, xs: seq<Name>) {
    forall y :: (y in active <==> y in subs && y !in xs) && (y in active ==> active[y] == subs[y])
  }

  /** Below a renamed binder group, the renaming followed by the active part of
      the substitution gives each local what the whole substitution gives it. */
  lemma BinderLookup(env: Env, subs: Subs, active: Subs, rename: Subs, xs: seq<Name>, xs': seq<Name>, x: Name)
    requires Rebound(xs, xs', rename) && PassesBinders(active, subs, xs)
    requires forall y, z :: y in active && z in xs' ==> !IsLocal(active[y], z)
    requires forall z :: z in xs' ==> z !in active
    requires x !in xs ==> x !in xs'
    ensures Lookup(Applied(Applied(Extend(env, xs'), active), rename), x)
         == Lookup(Extend(Applied(env, subs), xs), x)
  {
    hide Trans, Shift, IsLocal, Applied, Extend, Lookup;
    if x in xs {
      var i :| 0 <= i < |xs| && xs[i] == x;
      IndexOfDistinct(xs, i);
      IndexOfDistinct(xs', i);
      LookupBound(Applied(env, subs), xs, x);
      LookupBound(env, xs', xs'[i]);
      LookupRenamed(Extend(env, xs'), active, rename, x, xs'[i]);
    } else {
      LookupPassing(env, subs, active, rename, xs, xs', x);
    }
  }

  lemma LookupPassing(env: Env, subs: Subs, active: Subs, rename: Subs, xs: seq<Name>, xs': seq<Name>, x: Name)
    requires |xs'| == |xs| && x !in xs && x !in xs' && x !in rename
    requires x in active <==> x in subs
    requires x in subs ==> active[x] == subs[x] && forall z :: z in xs' ==> !IsLocal(subs[x], z)
    ensures Lookup(Applied(Applied(Extend(env, xs'), active), rename), x)
         == Lookup(Extend(Applied(env, subs), xs), x)
  {
    hide Trans, Shift, IsLocal, Extend;
    LookupPassed(env, xs', x);
    LookupPassed(Applied(env, subs), xs, x);
    if x in subs { TransWeaken(subs[x], env, xs'); }
  }

  lemma LookupRenamed(E: Env, active: Subs, rename: Subs, x: Name, x': Name)
    requires x' !in active
    requires if x in rename then rename[x] == Var(x', "") else x' == x
    ensures Lookup(Applied(Applied(E, active), rename), x) == Lookup(E, x')
  {
  }

  lemma BinderAgree(b: Core, env: Env, subs: Subs, active: Subs, rename: Subs, xs: seq<Name>, xs': seq<Name>)
    requires Rebound(xs, xs', rename) && PassesBinders(active, subs, xs)
    requires forall y, z :: y in active && z in xs' ==> !IsLocal(active[y], z)
    requires forall z :: z in xs' ==> z !in active
    requires forall x :: IsLocal(b, x) && x !in xs ==> x !in xs'
    ensures Trans(b, Applied(Applied(Extend(env, xs'), active), rename)) == Trans(b, Extend(Applied(env, subs), xs))
  {
    forall x | IsLocal(b, x)
      ensures Lookup(Applied(Applied(Extend(env, xs'), active), rename), x)
           == Lookup(Extend(Applied(env, subs), xs), x)
    {
      BinderLookup(env, subs, active, rename, xs, xs', x);
    }
    TransAgree(b, Extend(Applied(env, subs), xs), Applied(Applied(Extend(env, xs'), active), rename));
  }

  lemma AppliedNil(env: Env, subs: Subs)
    requires |subs| == 0
    ensures Applied(env, subs) == env
  {
  }

  lemma {:induction false} FreeAreOlder(e: Core, n: nat, avoid: Avoid, k: VarKey)
    requires Hygienic(e, n, avoid) && k in FreeVars(e)
    ensures Older(k.name, n)
  {
    if !e.Var? {
      var ss := Scopes(e);
      var i :| 0 <= i < |ss| && k in FreeVars(ss[i].body) - LocalKeys(ss[i].dropped);
      FreeAreOlder(ss[i].body, n, avoid, k);
    }
  }

  lemma ReadyLater(subs: Subs, fv: set<Name>, n: nat, m: nat)
    requires Ready(subs, fv, n) && n <= m
    ensures Ready(subs, fv, m)
  {
  }

  lemma FreshReady(rename: Subs, drawn: set<Name>, n0: nat, n: nat)
    requires FreshRenaming(rename, drawn, n0, n) && n0 <= n && SetOlder(rename.Keys, n0)
    ensures Ready(rename, drawn, n)
  {
    forall y | y in rename ensures FreeNames(rename[y]) <= drawn {
      assert FreeVars(rename[y]) == {VarKey("", rename[y].name)};
    }
    forall x, y | x in rename && y in rename && x != y ensures !IsLocal(rename[y], x) {
      assert rename[y].name in drawn;
    }
  }

  // ---- The theorem, former by former ----

  /** Translating the result of a simultaneous substitution is translating the
      original with every replaced name standing for its replacement. */
  lemma {:induction false} SubstTrans(e: Core, subs: Subs, fv: set<Name>, n: nat, env: Env)
    requires Ready(subs, fv, n) && Hygienic(e, n, Shun(subs, fv))
    ensures Trans(SubstMany(e, subs, fv, n).0, env) == Trans(e, Applied(env, subs))
    decreases Size(e), 2
  {
    hide Hygienic;
    if e.Var? {
    } else if e.Lam? {
      LamOk(e.param, e.paramType, e.body, n, Shun(subs, fv));
      BinderTrans(e.param, e.body, subs, fv, n, env);
      LamNode(SubstMany(e, subs, fv, n).0, e, env, Applied(env, subs));
    } else if e.Fix? {
      FixOk(e.name, e.body, n, Shun(subs, fv));
      BinderTrans(e.name, e.body, subs, fv, n, env);
      FixNode(SubstMany(e, subs, fv, n).0, e, env, Applied(env, subs));
    } else if e.Case? {
      CaseTrans(e, subs, fv, n, env);
    } else if e.Bind? {
      BindTrans(e, subs, fv, n, env);
    } else if IsData(e) {
      DataTrans(e, subs, fv, n, env);
    } else {
      PlainTrans(e, subs, fv, n, env);
    }
  }

  /** Nodes without binders translate alike when their labels agree and their
      children translate alike. */
  lemma PlainNode(r: Core, e: Core, env: Env, env': Env)
    requires !e.Var? && !Binds(e) && !r.Var? && !Binds(r)
    requires OpOf(r) == OpOf(e) && |Kids(r)| == |Kids(e)|
    requires forall i :: 0 <= i < |Kids(e)| ==> Trans(Kids(r)[i], env) == Trans(Kids(e)[i], env')
    ensures Trans(r, env) == Trans(e, env')
  {
    ExtendNil(env);
    ExtendNil(env');
    PlainNames(r);
    PlainNames(e);
    assert forall i :: 0 <= i < |Kids(e)| ==> Kids(e)[i] == Scopes(e)[i].body && Kids(r)[i] == Scopes(r)[i].body;
    NodeKids(r, e, env, env');
  }

  lemma NodeKids(r: Core, e: Core, env: Env, env': Env)
    requires !e.Var? && !r.Var? && OpOf(r) == OpOf(e) && |Scopes(r)| == |Scopes(e)|
    requires forall i :: 0 <= i < |Scopes(e)| ==>
      |Scopes(r)[i].names| == |Scopes(e)[i].names|
      && Trans(Scopes(r)[i].body, Extend(env, Scopes(r)[i].names)) == Trans(Scopes(e)[i].body, Extend(env', Scopes(e)[i].names))
    ensures Trans(r, env) == Trans(e, env')
  {
    assert TransKids(r, Scopes(r), env) == TransKids(e, Scopes(e), env');
  }

  lemma LamNode(r: Core, e: Core, env: Env, env': Env)
    requires e.Lam? && r.Lam? && r.paramType == e.paramType
    requires Trans(r.body, Extend(env, [r.param])) == Trans(e.body, Extend(env', [e.param]))
    ensures Trans(r, env) == Trans(e, env')
  {
    NodeKids(r, e, env, env');
  }

  lemma FixNode(r: Core, e: Core, env: Env, env': Env)
    requires e.Fix? && r.Fix?
    requires Trans(r.body, Extend(env, [r.name])) == Trans(e.body, Extend(env', [e.name]))
    ensures Trans(r, env) == Trans(e, env')
  {
    NodeKids(r, e, env, env');
  }

  lemma BindNode(r: Core, e: Core, env: Env, env': Env)
    requires e.Bind? && r.Bind? && r.isDiscard == e.isDiscard
    requires Trans(r.comp, env) == Trans(e.comp, env')
    requires Trans(r.body, Extend(env, [r.bvar])) == Trans(e.body, Extend(env', [e.bvar]))
    ensures Trans(r, env) == Trans(e, env')
  {
    ExtendNil(env);
    ExtendNil(env');
    NodeKids(r, e, env, env');
  }

  ghost predicate AltTrans(r: Alt, e: Alt, env: Env, env': Env) {
    && ShapeOf(r.pat) == ShapeOf(e.pat)
    && |Bindings(r.pat)| == |Bindings(e.pat)|
    && Trans(r.body, Extend(env, Bindings(r.pat))) == Trans(e.body, Extend(env', Bindings(e.pat)))
  }

  lemma CaseNode(r: Core, e: Core, env: Env, env': Env)
    requires e.Case? && r.Case? && |r.alts| == |e.alts|
    requires Trans(r.scrutinee, env) == Trans(e.scrutinee, env')
    requires forall i :: 0 <= i < |e.alts| ==> AltTrans(r.alts[i], e.alts[i], env, env')
    ensures Trans(r, env) == Trans(e, env')
  {
    hide Trans, Extend, Bindings;
    ExtendNil(env);
    ExtendNil(env');
    CaseScopes(r);
    CaseScopes(e);
    assert OpOf(r) == OpOf(e) by {
      forall i | 0 <= i < |e.alts| ensures ShapeOf(r.alts[i].pat) == ShapeOf(e.alts[i].pat) {
        assert AltTrans(r.alts[i], e.alts[i], env, env');
      }
    }
    var ss, ss' := Scopes(r), Scopes(e);
    forall i | 0 <= i < |ss'|
      ensures |ss[i].names| == |ss'[i].names|
      ensures Trans(ss[i].body, Extend(env, ss[i].names)) == Trans(ss'[i].body, Extend(env', ss'[i].names))
    {
      if i > 0 { assert AltTrans(r.alts[i - 1], e.alts[i - 1], env, env'); }
    }
    NodeKids(r, e, env, env');
  }

  /** Below one renamed binder, the way every binding former uses it. */
  lemma {:induction false} RenamedTrans(b: Core, subs: Subs, active: Subs, rename: Subs, drawn: set<Name>,
                                        xs: seq<Name>, xs': seq<Name>, fv: set<Name>, n0: nat, n: nat, env: Env)
    requires Ready(subs, fv, n0) && n0 <= n && Hygienic(b, n0, Shun(subs, fv)) && AllOlder(xs, n0)
    requires FreshRenaming(rename, drawn, n0, n) && Rebound(xs, xs', rename) && PassesBinders(active, subs, xs)
    requires forall y, z :: y in active && z in xs' ==> !IsLocal(active[y], z)
    ensures var r1 := if |rename| == 0 then (b, n) else SubstMany(b, rename, drawn, n);
      var t := Trans(b, Extend(Applied(env, subs), xs));
      && Trans(SubstMany(r1.0, active, fv, r1.1).0, Extend(env, xs')) == t
      && (|active| == 0 ==> Trans(r1.0, Extend(env, xs')) == t)
    decreases Size(b), 3
  {
    hide Hygienic, SubstMany, Trans, IsLocal, Lookup, Extend;
    var r1 := if |rename| == 0 then (b, n) else SubstMany(b, rename, drawn, n);
    var E := Extend(env, xs');
    var A := Applied(E, active);
    if |rename| == 0 {
      AppliedNil(A, rename);
      HygienicLater(b, n0, n, Shun(subs, fv), Shun(subs, fv));
    } else {
      assert SetOlder(rename.Keys, n0);
      FreshReady(rename, drawn, n0, n);
      HygienicLater(b, n0, n, Shun(subs, fv), Shun(rename, drawn)) by { RenamingShuns(subs, fv, rename, drawn, n0, n); }
      SubstTrans(b, rename, drawn, n, A);
      FunsStable(Crossed(subs), n0);
      RenameHygienic(b, rename, drawn, n0, n, Shun(subs, fv));
    }
    assert Trans(r1.0, A) == Trans(b, Applied(A, rename));
    if |active| == 0 { AppliedNil(E, active); }
    ReadyPart(subs, active, xs, fv, n0, r1.1);
    HygienicLater(r1.0, r1.1, r1.1, Shun(subs, fv), Shun(active, fv)) by { PartShuns(subs, active, xs, fv, r1.1); }
    SubstTrans(r1.0, active, fv, r1.1, E);
    NewBinders(b, subs, active, rename, drawn, xs, xs', fv, n0, n);
    BinderAgree(b, env, subs, active, rename, xs, xs');
  }

  /** A renaming crosses nothing and avoids no older name. */
  lemma RenamingShuns(subs: Subs, fv: set<Name>, rename: Subs, drawn: set<Name>, n0: nat, n: nat)
    requires FreshRenaming(rename, drawn, n0, n) && SetOlder(rename.Keys, n0)
    ensures Laxer(Shun(subs, fv), Shun(rename, drawn), n0)
  {
    forall x, y | x in rename && y in rename && x != y ensures !IsLocal(rename[y], x) { assert rename[y].name in drawn; }
    assert Crossed(rename) == {};
  }

  lemma PartShuns(subs: Subs, active: Subs, xs: seq<Name>, fv: set<Name>, n: nat)
    requires PassesBinders(active, subs, xs)
    ensures Laxer(Shun(subs, fv), Shun(active, fv), n)
  {
    hide IsLocal;
    assert Crossed(active) <= Crossed(subs);
  }

  lemma ReadyPart(subs: Subs, active: Subs, xs: seq<Name>, fv: set<Name>, n: nat, m: nat)
    requires Ready(subs, fv, n) && n <= m && PassesBinders(active, subs, xs)
    ensures Ready(active, fv, m)
  {
  }

  /** No new binder name is among the active names or the other locals of the body. */
  lemma NewBinders(b: Core, subs: Subs, active: Subs, rename: Subs, drawn: set<Name>,
                   xs: seq<Name>, xs': seq<Name>, fv: set<Name>, n0: nat, n: nat)
    requires Ready(subs, fv, n0) && n0 <= n && Hygienic(b, n0, Shun(subs, fv))
    requires FreshRenaming(rename, drawn, n0, n) && Rebound(xs, xs', rename) && PassesBinders(active, subs, xs)
    ensures forall z :: z in xs' ==> z !in active
    ensures forall x :: IsLocal(b, x) && x !in xs ==> x !in xs'
  {
    hide Hygienic;
    forall i | 0 <= i < |xs'| ensures xs'[i] in xs || !Older(xs'[i], n0) {
      if xs[i] in rename { assert xs'[i] in drawn; } else { assert xs[i] in xs; }
    }
    forall x | IsLocal(b, x) ensures Older(x, n0) {
      LocalsAreFree(b, x);
      FreeAreOlder(b, n0, Shun(subs, fv), VarKey("", x));
    }
  }

  lemma NotLocal(subs: Subs, fv: set<Name>, n: nat, x: Name)
    requires Ready(subs, fv, n)
    ensures x !in fv ==> forall y :: y in subs ==> !IsLocal(subs[y], x)
    ensures forall y :: y in subs ==> !IsLocal(subs[y], FreshName(x, n + 1))
  {
    hide IsLocal;
    assert FreshName(x, n + 1) !in fv by { assert !Older(FreshName(x, n + 1), n); }
    forall y, z | y in subs && IsLocal(subs[y], z) ensures z in fv { LocalIsCovered(fv, subs, y, z); }
  }

  lemma OnePasses(subs: Subs, x: Name)
    ensures PassesBinders(if x in subs then WithoutKey(subs, x) else subs, subs, [x])
  {
    if x in subs { WithoutKeyRemoves(subs, x); }
  }

  /** A single binder that keeps its name. */
  lemma {:induction false} KeptTrans(x: Name, b: Core, subs: Subs, active: Subs, fv: set<Name>, n: nat, env: Env)
    requires Ready(subs, fv, n) && Older(x, n) && Hygienic(b, n, Shun(subs, fv)) && PassesBinders(active, subs, [x])
    requires forall y :: y in active ==> !IsLocal(active[y], x)
    ensures var t := Trans(b, Extend(Applied(env, subs), [x]));
      && Trans(SubstMany(b, active, fv, n).0, Extend(env, [x])) == t
      && (|active| == 0 ==> Trans(b, Extend(env, [x])) == t)
    decreases Size(b), 4
  {
    hide Hygienic, SubstMany, Trans, IsLocal, Extend, Applied, PassesBinders, Ready;
    var rename: Subs := map[];
    assert Rebound([x], [x], rename) && AllOlder([x], n);
    RenamedTrans(b, subs, active, rename, {}, [x], [x], fv, n, n, env);
  }

  /** A single binder that is renamed. */
  lemma {:induction false} MovedTrans(x: Name, b: Core, subs: Subs, active: Subs, fv: set<Name>, n: nat, env: Env)
    requires Ready(subs, fv, n) && Older(x, n) && Hygienic(b, n, Shun(subs, fv)) && PassesBinders(active, subs, [x])
    requires forall y :: y in active ==> !IsLocal(active[y], FreshName(x, n + 1))
    ensures var f := FreshName(x, n + 1);
      var r1 := SubstMany(b, map[x := Var(f, "")], {f}, n + 1);
      var t := Trans(b, Extend(Applied(env, subs), [x]));
      && Trans(SubstMany(r1.0, active, fv, r1.1).0, Extend(env, [f])) == t
      && (|active| == 0 ==> Trans(r1.0, Extend(env, [f])) == t)
    decreases Size(b), 4
  {
    hide Hygienic, SubstMany, Trans, IsLocal, Extend, Applied, PassesBinders, Ready;
    var f := FreshName(x, n + 1);
    OneFresh(x, n);
    var rename := map[x := Var(f, "")];
    assert Rebound([x], [f], rename) && AllOlder([x], n) && |rename| == 1;
    RenamedTrans(b, subs, active, rename, {f}, [x], [f], fv, n, n + 1, env);
  }

  lemma {:induction false} BinderTrans(x: Name, b: Core, subs: Subs, fv: set<Name>, n: nat, env: Env)
    requires Ready(subs, fv, n) && Older(x, n) && Hygienic(b, n, Shun(subs, fv)) && x !in Crossed(subs)
    ensures var r := SubstBinder(x, b, subs, fv, n);
      Trans(r.1, Extend(env, [r.0])) == Trans(b, Extend(Applied(env, subs), [x]))
    decreases Size(b), 5
  {
    hide Hygienic, SubstMany, Trans, IsLocal, Extend, Applied;
    OnePasses(subs, x);
    NotLocal(subs, fv, n, x);
    if x in subs {
      KeptTrans(x, b, subs, WithoutKey(subs, x), fv, n, env);
    } else if x in fv {
      MovedTrans(x, b, subs, subs, fv, n, env);
    } else {
      KeptTrans(x, b, subs, subs, fv, n, env);
    }
  }

  lemma {:induction false} BoundTrans(x: Name, b: Core, subs: Subs, fv: set<Name>, n: nat, env: Env)
    requires Ready(subs, fv, n) && Older(x, n) && Hygienic(b, n, Shun(subs, fv))
    ensures var r := SubstBound(x, b, subs, fv, n);
      Trans(r.1, Extend(env, [r.0])) == Trans(b, Extend(Applied(env, subs), [x]))
    decreases Size(b), 5
  {
    hide Hygienic, SubstMany, Trans, IsLocal, Extend, Applied;
    var active := if x in subs then WithoutKey(subs, x) else subs;
    OnePasses(subs, x);
    NotLocal(subs, fv, n, x);
    if x in fv {
      MovedTrans(x, b, subs, active, fv, n, env);
    } else {
      KeptTrans(x, b, subs, active, fv, n, env);
    }
  }

  lemma {:induction false} BindTrans(e: Core, subs: Subs, fv: set<Name>, n: nat, env: Env)
    requires e.Bind? && Ready(subs, fv, n) && Hygienic(e, n, Shun(subs, fv))
    ensures Trans(SubstMany(e, subs, fv, n).0, env) == Trans(e, Applied(env, subs))
    decreases Size(e), 1
  {
    hide Hygienic, Trans;
    var p := SubstMany(e.comp, subs, fv, n);
    BindOk(e.comp, e.bvar, e.isDiscard, e.body, n, Shun(subs, fv));
    SubstTrans(e.comp, subs, fv, n, env);
    ReadyLater(subs, fv, n, p.1);
    HygienicLater(e.body, n, p.1, Shun(subs, fv), Shun(subs, fv));
    OlderLater(e.bvar, n, p.1);
    BoundTrans(e.bvar, e.body, subs, fv, p.1, env);
    BindNode(SubstMany(e, subs, fv, n).0, e, env, Applied(env, subs));
  }

  lemma {:induction false} PairTrans(a: Core, b: Core, subs: Subs, fv: set<Name>, n: nat, env: Env)
    requires Ready(subs, fv, n) && Hygienic(a, n, Shun(subs, fv)) && Hygienic(b, n, Shun(subs, fv))
    ensures var p := SubstMany(a, subs, fv, n);
      Trans(p.0, env) == Trans(a, Applied(env, subs))
      && Trans(SubstMany(b, subs, fv, p.1).0, env) == Trans(b, Applied(env, subs))
    decreases Size(a) + Size(b), 3
  {
    hide Hygienic, SubstMany, Trans;
    var p := SubstMany(a, subs, fv, n);
    SubstTrans(a, subs, fv, n, env);
    ReadyLater(subs, fv, n, p.1);
    HygienicLater(b, n, p.1, Shun(subs, fv), Shun(subs, fv));
    SubstTrans(b, subs, fv, p.1, env);
  }

  lemma {:induction false} ArgsTrans(es: seq<Core>, subs: Subs, fv: set<Name>, n: nat, env: Env)
    requires Ready(subs, fv, n) && ArgsOk(es, n, Shun(subs, fv))
    ensures forall i :: 0 <= i < |es| ==>
      Trans(SubstArgs(es, subs, fv, n).0[i], env) == Trans(es[i], Applied(env, subs))
    decreases SizeArgs(es), |es| + 3
  {
    hide Hygienic, SubstMany, Trans, Applied;
    if es != [] {
      var p := SubstMany(es[0], subs, fv, n);
      var q := SubstArgs(es[1..], subs, fv, p.1);
      SubstTrans(es[0], subs, fv, n, env);
      ReadyLater(subs, fv, n, p.1);
      ArgsLater(es[1..], n, p.1, Shun(subs, fv));
      ArgsTrans(es[1..], subs, fv, p.1, env);
      assert SubstArgs(es, subs, fv, n).0 == [p.0] + q.0;
      forall i | 0 < i < |es| ensures Trans(([p.0] + q.0)[i], env) == Trans(es[i], Applied(env, subs)) {
        assert es[1..][i - 1] == es[i];
      }
    }
  }

  lemma {:induction false} FieldsTrans(fs: seq<Field>, subs: Subs, fv: set<Name>, n: nat, env: Env)
    requires Ready(subs, fv, n) && FieldsOk(fs, n, Shun(subs, fv))
    ensures Labels(SubstFields(fs, subs, fv, n).0) == Labels(fs)
    ensures forall i :: 0 <= i < |fs| ==>
      Trans(SubstFields(fs, subs, fv, n).0[i].value, env) == Trans(fs[i].value, Applied(env, subs))
    decreases SizeFields(fs), |fs| + 3
  {
    hide Hygienic, SubstMany, Trans, Applied;
    if fs != [] {
      var p := SubstMany(fs[0].value, subs, fv, n);
      var q := SubstFields(fs[1..], subs, fv, p.1);
      SubstTrans(fs[0].value, subs, fv, n, env);
      ReadyLater(subs, fv, n, p.1);
      FieldsLater(fs[1..], n, p.1, Shun(subs, fv));
      FieldsTrans(fs[1..], subs, fv, p.1, env);
      var r := SubstFields(fs, subs, fv, n).0;
      assert r == [Field(fs[0].lbl, p.0)] + q.0;
      forall i | 0 < i < |fs|
        ensures r[i].lbl == fs[i].lbl && Trans(r[i].value, env) == Trans(fs[i].value, Applied(env, subs))
      {
        assert fs[1..][i - 1] == fs[i] && r[i] == q.0[i - 1];
        assert Labels(q.0)[i - 1] == Labels(fs[1..])[i - 1];
      }
    }
  }

  lemma {:induction false} PlainTrans(e: Core, subs: Subs, fv: set<Name>, n: nat, env: Env)
    requires !e.Var? && !Binds(e) && !IsData(e) && Ready(subs, fv, n) && Hygienic(e, n, Shun(subs, fv))
    ensures Trans(SubstPlain(e, subs, fv, n).0, env) == Trans(e, Applied(env, subs))
    decreases Size(e), 1
  {
    hide Hygienic, SubstMany, Trans, Kids, Scopes, Applied, Ready;
    var r := SubstPlain(e, subs, fv, n).0;
    PlainOk(e, n, Shun(subs, fv));
    PlainKids(e);
    PlainKids(r);
    var ks := Kids(e);
    match e {
      case App(f, a) => assert ks[0] == f && ks[1] == a; PairTrans(f, a, subs, fv, n, env);
      case TyApp(x, ty) => assert ks[0] == x; SubstTrans(x, subs, fv, n, env);
      case TyLam(a, k, b) => assert ks[0] == b; SubstTrans(b, subs, fv, n, env);
      case Con(c, m, args) => assert ks == args; ArgsTrans(args, subs, fv, n, env);
      case Pure(x) => assert ks[0] == x; SubstTrans(x, subs, fv, n, env);
      case Thunk(c) => assert ks[0] == c; SubstTrans(c, subs, fv, n, env);
      case Force(x) => assert ks[0] == x; SubstTrans(x, subs, fv, n, env);
      case Merge(l, t, ll, rl) => assert ks[0] == l && ks[1] == t; PairTrans(l, t, subs, fv, n, env);
      case PrimOp(op, k, eff, args) => assert ks == args; ArgsTrans(args, subs, fv, n, env);
      case Lit(_) =>
      case Error =>
    }
    PlainNode(r, e, env, Applied(env, subs));
  }

  lemma {:induction false} DataTrans(e: Core, subs: Subs, fv: set<Name>, n: nat, env: Env)
    requires IsData(e) && Ready(subs, fv, n) && Hygienic(e, n, Shun(subs, fv))
    ensures Trans(SubstData(e, subs, fv, n).0, env) == Trans(e, Applied(env, subs))
    decreases Size(e), 1
  {
    hide Hygienic, SubstMany, Trans, Applied, Ready, Kids, Scopes;
    var r := SubstData(e, subs, fv, n).0;
    PlainOk(e, n, Shun(subs, fv));
    PlainKids(e);
    PlainKids(r);
    var ks := Kids(e);
    match e {
      case RecordLit(fs) =>
        forall i | 0 <= i < |fs| ensures Hygienic(fs[i].value, n, Shun(subs, fv)) { assert ks[i] == fs[i].value; }
        FieldsTrans(fs, subs, fv, n, env);
      case RecordProj(x, l) => assert ks[0] == x; SubstTrans(x, subs, fv, n, env);
      case RecordUpdate(x, fs) => UpdateTrans(e, subs, fv, n, env);
      case VariantLit(t, v) => assert ks[0] == v; SubstTrans(v, subs, fv, n, env);
    }
    PlainNode(r, e, env, Applied(env, subs));
  }

  lemma {:induction false} UpdateTrans(e: Core, subs: Subs, fv: set<Name>, n: nat, env: Env)
    requires e.RecordUpdate? && Ready(subs, fv, n) && ArgsOk(Kids(e), n, Shun(subs, fv))
    ensures var r := SubstData(e, subs, fv, n).0;
      && r.RecordUpdate? && OpOf(r) == OpOf(e)
      && |Kids(r)| == |Kids(e)|
      && forall i :: 0 <= i < |Kids(e)| ==> Trans(Kids(r)[i], env) == Trans(Kids(e)[i], Applied(env, subs))
    decreases Size(e), 0
  {
    hide Hygienic, SubstMany, Trans, Applied, Kids, Scopes;
    var r, ks := SubstData(e, subs, fv, n).0, Kids(e);
    var x, fs := e.record, e.updates;
    PlainKids(e);
    PlainKids(r);
    assert ks[0] == x;
    forall i | 0 <= i < |fs| ensures Hygienic(fs[i].value, n, Shun(subs, fv)) { assert ks[i + 1] == fs[i].value; }
    var p := SubstFields(fs, subs, fv, n);
    FieldsTrans(fs, subs, fv, n, env);
    ReadyLater(subs, fv, n, p.1);
    HygienicLater(x, n, p.1, Shun(subs, fv), Shun(subs, fv));
    SubstTrans(x, subs, fv, p.1, env);
    forall i | 0 <= i < |ks| ensures Trans(Kids(r)[i], env) == Trans(ks[i], Applied(env, subs)) {
      if i > 0 { assert ks[i] == fs[i - 1].value && Kids(r)[i] == p.0[i - 1].value; }
    }
  }

  lemma {:induction false} AltSubstTrans(alt: Alt, subs: Subs, fv: set<Name>, n: nat, env: Env)
    requires Ready(subs, fv, n) && AltOk(alt, n, Shun(subs, fv))
    ensures AltTrans(SubstAlt(alt, subs, fv, n).0, alt, env, Applied(env, subs))
    decreases Size(alt.body), 4
  {
    hide Hygienic, SubstMany, Trans, IsLocal, Applied, RenameClashes, ShapeOf, Extend;
    var bs := Bindings(alt.pat);
    var active := Active(subs, bs);
    var pr := RenameClashes(PatternRenaming(alt.pat, map[], {}, n), bs, fv);
    ActiveKeeps(subs, bs);
    ClashesRenamed(alt.pat, fv, n);
    assert bs[..|bs|] == bs;
    NewNamesDistinct(pr.rename, pr.drawn, n, pr.n, bs);
    BindersUnused(subs, active, pr.rename, pr.drawn, bs, fv, n, pr.n);
    RenamedTrans(alt.body, subs, active, pr.rename, pr.drawn, bs, Bindings(pr.pat), fv, n, pr.n, env);
  }

  /** After renaming, no binder of the pattern is free in an active replacement. */
  lemma BindersUnused(subs: Subs, active: Subs, rename: Subs, drawn: set<Name>, bs: seq<Name>, fv: set<Name>, n0: nat, n: nat)
    requires Ready(subs, fv, n0) && FreshRenaming(rename, drawn, n0, n) && PassesBinders(active, subs, bs)
    requires Renames(rename, bs, |bs|, fv)
    ensures forall y, z :: y in active && z in NewNames(rename, bs) ==> !IsLocal(active[y], z)
  {
    hide IsLocal;
    assert bs[..|bs|] == bs;
    forall y, z | y in active && z in NewNames(rename, bs) ensures !IsLocal(active[y], z) {
      var i :| 0 <= i < |bs| && NewNames(rename, bs)[i] == z;
      assert bs[i] in bs;
      if IsLocal(subs[y], z) { LocalIsCovered(fv, subs, y, z); }
    }
  }

  lemma {:induction false} AltsTrans(alts: seq<Alt>, subs: Subs, fv: set<Name>, n: nat, env: Env)
    requires Ready(subs, fv, n) && AltsOk(alts, n, Shun(subs, fv))
    ensures forall i :: 0 <= i < |alts| ==>
      AltTrans(SubstAlts(alts, subs, fv, n).0[i], alts[i], env, Applied(env, subs))
    decreases SizeAlts(alts), |alts| + 4
  {
    hide Hygienic, SubstAlt, AltTrans, Applied;
    if alts != [] {
      var p := SubstAlt(alts[0], subs, fv, n);
      var q := SubstAlts(alts[1..], subs, fv, p.1);
      AltSubstTrans(alts[0], subs, fv, n, env);
      ReadyLater(subs, fv, n, p.1);
      AltsLater(alts[1..], n, p.1, Shun(subs, fv));
      AltsTrans(alts[1..], subs, fv, p.1, env);
      assert SubstAlts(alts, subs, fv, n).0 == [p.0] + q.0;
      forall i | 0 < i < |alts| ensures AltTrans(([p.0] + q.0)[i], alts[i], env, Applied(env, subs)) {
        assert alts[1..][i - 1] == alts[i];
      }
    }
  }

  lemma {:induction false} CaseTrans(e: Core, subs: Subs, fv: set<Name>, n: nat, env: Env)
    requires e.Case? && Ready(subs, fv, n) && Hygienic(e, n, Shun(subs, fv))
    ensures Trans(SubstMany(e, subs, fv, n).0, env) == Trans(e, Applied(env, subs))
    decreases Size(e), 1
  {
    hide Hygienic, Trans, Applied, AltTrans;
    var p := SubstAlts(e.alts, subs, fv, n);
    CaseOk(e.scrutinee, e.alts, n, Shun(subs, fv));
    AltsTrans(e.alts, subs, fv, n, env);
    ReadyLater(subs, fv, n, p.1);
    HygienicLater(e.scrutinee, n, p.1, Shun(subs, fv), Shun(subs, fv));
    SubstTrans(e.scrutinee, subs, fv, p.1, env);
    CaseNode(SubstMany(e, subs, fv, n).0, e, env, Applied(env, subs));
  }

  // ---- What callers get ----

  /** Accepts every node. */
  ghost function Anything(): View -> bool { (_: View) => true }

  function Nameless0(e: Core): Term { Trans(e, map[]) }

  function NamelessAll(subs: Subs): Env { map y | y in subs :: Nameless0(subs[y]) }

  /** What it means for a simultaneous substitution to come out right on `e`. */
  ghost predicate Right(e: Core, subs: Subs, fv: set<Name>, n: nat) {
    Nameless0(SubstMany(e, subs, fv, n).0) == Act(Nameless0(e), Globals(NamelessAll(subs)), 0)
  }

  /** Simultaneous substitution agrees with simultaneous nameless substitution. */
  lemma SubstManyRight(e: Core, subs: Subs, fv: set<Name>, n: nat)
    requires Ready(subs, fv, n) && Hygienic(e, n, Shun(subs, fv))
    ensures Right(e, subs, fv, n)
  {
    SubstTrans(e, subs, fv, n, map[]);
    assert Applied(map[], subs) == NamelessAll(subs);
    TransIsGlobals(e, NamelessAll(subs));
  }

  /** Single-name substitution is capture-avoiding with no condition relating
      the replaced name to the replacement. */
  lemma SubstFVRight(e: Core, x: Name, r: Core, n: nat)
    requires Older(x, n) && SetOlder(FreeNames(r), n) && Hygienic(e, n, Avoid(FreeNames(r), Anything()))
    ensures Nameless0(SubstFV(e, x, r, FreeNames(r), n).0)
         == Act(Nameless0(e), Globals(map[x := Nameless0(r)]), 0)
  {
    hide Hygienic;
    var subs := map[x := r];
    assert Crossed(subs) == {};
    HygienicLater(e, n, n, Avoid(FreeNames(r), Anything()), Shun(subs, FreeNames(r)));
    SubstManyRight(e, subs, FreeNames(r), n);
    assert NamelessAll(map[x := r]) == map[x := Nameless0(r)];
  }

  /** With nothing to replace, only bound names can change. */
  lemma SubstNothing(e: Core, fv: set<Name>, n: nat)
    requires SetOlder(fv, n) && Hygienic(e, n, Avoid(fv, Anything()))
    ensures Nameless0(SubstMany(e, map[], fv, n).0) == Nameless0(e)
  {
    hide Hygienic;
    assert Crossed(map[]) == {};
    HygienicLater(e, n, n, Avoid(fv, Anything()), Shun(map[], fv));
    SubstTrans(e, map[], fv, n, map[]);
    AppliedNil(map[], map[]);
  }
}
