/**
  Exactly where substitution comes out right.
 */
module SubstLimits {
  import opened CoreIR
  import opened Nameless
  import opened Translate
  import opened FreshNames
  import opened Subst
  import opened Hygiene
  import opened SubstCorrect

  predicate Occurs(t: Term, key: VarKey) {
    match t
    case Bound(_) => false
    case Free(k) => k == key
    case Node(_, kids) => exists i :: 0 <= i < |kids| && Occurs(kids[i].body, key)
  }

  lemma {:induction false} OccursShift(t: Term, k: nat, c: nat, key: VarKey)
    ensures Occurs(Shift(t, k, c), key) <==> Occurs(t, key)
  {
    if t.Node? {
      var kids, kids' := t.kids, ShiftKids(t.kids, k, c);
      forall i | 0 <= i < |kids| ensures Occurs(kids'[i].body, key) <==> Occurs(kids[i].body, key) {
        assert kids[i].body < kids[i];
        OccursShift(kids[i].body, k, c + kids[i].binds, key);
      }
    }
  }

  /** A local that the environment leaves alone survives translation. */
  lemma {:induction false} LocalOccurs(e: Core, env: Env, x: Name)
    requires IsLocal(e, x) && x !in env
    ensures Occurs(Trans(e, env), VarKey("", x))
  {
    if !e.Var? {
      var ss := Scopes(e);
      var i :| 0 <= i < |ss| && x !in ss[i].names && IsLocal(ss[i].body, x);
      LocalOccurs(ss[i].body, Extend(env, ss[i].names), x);
      assert TransKids(e, ss, env)[i].body == Trans(ss[i].body, Extend(env, ss[i].names));
    }
  }

  /** A local that the environment binds to something else does not. */
  lemma {:induction false} BoundNeverOccurs(e: Core, env: Env, x: Name)
    requires x in env && forall y :: y in env ==> !Occurs(env[y], VarKey("", x))
    ensures !Occurs(Trans(e, env), VarKey("", x))
  {
    if !e.Var? {
      var ss := Scopes(e);
      forall i | 0 <= i < |ss| ensures !Occurs(TransKids(e, ss, env)[i].body, VarKey("", x)) {
        var env' := Extend(env, ss[i].names);
        forall y | y in env' ensures !Occurs(env'[y], VarKey("", x)) {
          if y !in ss[i].names { OccursShift(env[y], |ss[i].names|, 0, VarKey("", x)); }
        }
        BoundNeverOccurs(ss[i].body, env', x);
      }
    }
  }

  /** Going under a binder weakens a term exactly when the binder does not capture. */
  lemma WeakenIff(r: Core, x: Name)
    ensures Trans(r, Extend(map[], [x])) == Shift(Nameless0(r), 1, 0) <==> !IsLocal(r, x)
  {
    hide Trans, IsLocal, Shift, Occurs;
    if IsLocal(r, x) {
      var env := Extend(map[], [x]);
      assert env == map[x := Bound(0)];
      assert !Occurs(Bound(0), VarKey("", x)) by { BoundOccurs(x); }
      BoundNeverOccurs(r, env, x);
      LocalOccurs(r, map[], x);
      OccursShift(Nameless0(r), 1, 0, VarKey("", x));
    } else {
      TransWeaken(r, map[], [x]);
    }
  }

  lemma BoundOccurs(x: Name)
    ensures !Occurs(Bound(0), VarKey("", x))
  {
  }

  lemma VarPasses(x: Name, y: Name)
    requires x != y
    ensures Trans(Var(y, ""), Extend(map[], [x])) == Free(VarKey("", y))
  {
    LookupPassed(map[], [x], y);
  }

  lemma LamTrans(x: Name, b: Core)
    ensures Nameless0(Lam(x, NoTy, b)) == Node(OLam(NoTy), [Kid(1, Trans(b, Extend(map[], [x])))])
  {
    var e := Lam(x, NoTy, b);
    assert Scopes(e) == [Under([x], {x}, b)];
    assert TransKids(e, Scopes(e), map[]) == [Kid(1, Trans(b, Extend(map[], [x])))];
  }

  /** Replacing the only variable below one binder weakens its replacement. */
  lemma ActUnderOne(op: Op, y: Name, subs: Subs)
    requires y in subs
    ensures Act(Node(op, [Kid(1, Free(VarKey("", y)))]), Globals(NamelessAll(subs)), 0)
         == Node(op, [Kid(1, Shift(Nameless0(subs[y]), 1, 0))])
  {
    assert ActKids([Kid(1, Free(VarKey("", y)))], Globals(NamelessAll(subs)), 0)[0]
        == Kid(1, Shift(Nameless0(subs[y]), 1, 0));
  }

  /** The function that rebinds one replaced name and returns another. */
  function ShadowingLam(x: Name, y: Name): Core { Lam(x, NoTy, Var(y, "")) }

  lemma ShadowResult(subs: Subs, fv: set<Name>, n: nat, x: Name, y: Name)
    requires x in subs && y in subs && x != y
    ensures SubstMany(ShadowingLam(x, y), subs, fv, n).0 == Lam(x, NoTy, subs[y])
  {
    var reduced := WithoutKey(subs, x);
    WithoutKeyRemoves(subs, x);
    assert y in reduced && |reduced| > 0;
    assert SubstMany(Var(y, ""), reduced, fv, n) == (subs[y], n);
    assert SubstBinder(x, Var(y, ""), subs, fv, n) == (x, subs[y], n);
  }

  /** A `Lam` (or `Fix`) whose binder is being replaced skips the capture test:
      substitution comes out right on it only if that name is not free in what
      replaces the name its body uses. */
  lemma ShadowRightIff(subs: Subs, fv: set<Name>, n: nat, x: Name, y: Name)
    requires x in subs && y in subs && x != y
    ensures Right(ShadowingLam(x, y), subs, fv, n) <==> !IsLocal(subs[y], x)
  {
    hide Trans, IsLocal, SubstMany, Shift, Extend, Act;
    ShadowResult(subs, fv, n, x, y);
    LamTrans(x, subs[y]);
    LamTrans(x, Var(y, ""));
    VarPasses(x, y);
    ActUnderOne(OLam(NoTy), y, subs);
    WeakenIff(subs[y], x);
  }

  /** A case whose only alternative binds the payload of a label. */
  function LabelCase(l: string, y: Name, b: Core): Core { Case(Error, [Alt(PLabel(l, y), b)]) }

  lemma LabelTrans(l: string, y: Name, b: Core)
    requires y != ""
    ensures Nameless0(LabelCase(l, y, b))
         == Node(OCase([SLabel(l, true)]), [Kid(0, Node(OError, [])), Kid(1, Trans(b, Extend(map[], [y])))])
  {
    var e := LabelCase(l, y, b);
    CaseScopes(e);
    assert OpOf(e) == OCase([SLabel(l, true)]);
    assert Trans(Error, Extend(map[], [])) == Node(OError, []);
    assert TransKids(e, Scopes(e), map[]) == [Kid(0, Node(OError, [])), Kid(1, Trans(b, Extend(map[], [y])))];
  }

  // ---- All terms at once ----

  type Names = Name -> bool

  /** Label payloads in `e` bind names in `P` only, and `Lam` and `Fix` names in `F` only. */
  ghost predicate Uses(e: Core, P: Names, F: Names) {
    && (e.Lam? ==> F(e.param))
    && (e.Fix? ==> F(e.name))
    && (e.Case? ==> forall i, x :: 0 <= i < |e.alts| && x in PayloadVars(e.alts[i].pat) ==> P(x))
    && forall i :: 0 <= i < |Scopes(e)| ==> Uses(Scopes(e)[i].body, P, F)
  }

  /** Hygienic, with nothing to avoid. */
  ghost predicate Wellnamed(e: Core, n: nat) { Hygienic(e, n, Avoid({}, Anything())) }

  function AllNames(): Names { (_: Name) => true }

  function NoNames(): Names { (_: Name) => false }

  ghost predicate Apart(P: Names, xs: set<Name>) { forall x :: x in xs ==> !P(x) }

  lemma {:induction false} UsesShuns(e: Core, n: nat, P: Names, F: Names, subs: Subs, fv: set<Name>)
    requires Wellnamed(e, n) && Uses(e, P, F) && Apart(P, fv) && Apart(F, Crossed(subs))
    ensures Hygienic(e, n, Shun(subs, fv))
  {
    hide Scopes, Crossed;
    if !e.Var? {
      var ss := Scopes(e);
      forall i | 0 <= i < |ss| ensures Hygienic(ss[i].body, n, Shun(subs, fv)) {
        UsesShuns(ss[i].body, n, P, F, subs, fv);
      }
      if e.Case? {
        forall i | 0 <= i < |e.alts| ensures PatternOk(e.alts[i].pat, fv) { assert PatternOk(e.alts[i].pat, {}); }
      }
    }
  }

  lemma DanglingAlt(l: string, y: Name, subs: Subs, fv: set<Name>, n: nat)
    requires y != "" && y in fv && SetOlder(subs.Keys, n)
    ensures SubstAlt(Alt(PLabel(l, y), Var(y, "")), subs, fv, n).0 == Alt(PLabel(l, y), Var(FreshName(y, n + 1), ""))
  {
    hide FreshName;
    var f := FreshName(y, n + 1);
    assert f !in subs by { assert !Older(f, n); }
    var alt, bs := Alt(PLabel(l, y), Var(y, "")), [y];
    assert Bindings(alt.pat) == bs;
    ActiveKeeps(subs, bs);
    ClashOfOne(l, y, fv, n);
    var rename := map[y := Var(f, "")];
    assert |rename| == 1;
    assert SubstMany(Var(y, ""), rename, {f}, n + 1) == (Var(f, ""), n + 1);
    assert SubstMany(Var(f, ""), Active(subs, bs), fv, n + 1).0 == Var(f, "");
  }

  lemma ClashOfOne(l: string, y: Name, fv: set<Name>, n: nat)
    requires y in fv
    ensures var f := FreshName(y, n + 1);
      RenameClashes(PatternRenaming(PLabel(l, y), map[], {}, n), [y], fv)
        == PatternRenaming(PLabel(l, y), map[y := Var(f, "")], {f}, n + 1)
  {
    hide FreshName;
    var f := FreshName(y, n + 1);
    var acc := PatternRenaming(PLabel(l, y), map[], {}, n);
    var acc' := PatternRenaming(PLabel(l, y), map[y := Var(f, "")], {f}, n + 1);
    assert map[][y := Var(f, "")] == map[y := Var(f, "")] && {} + {f} == {f} && [y][1..] == [];
    assert RenameClashes(acc, [y], fv) == RenameClashes(acc', [y][1..], fv);
  }

  lemma DanglingResult(l: string, y: Name, subs: Subs, fv: set<Name>, n: nat)
    requires y != "" && y in fv && SetOlder(subs.Keys, n)
    ensures SubstMany(LabelCase(l, y, Var(y, "")), subs, fv, n).0 == LabelCase(l, y, Var(FreshName(y, n + 1), ""))
  {
    hide FreshName, SubstAlt;
    DanglingAlt(l, y, subs, fv, n);
    var alts := [Alt(PLabel(l, y), Var(y, ""))];
    assert alts[1..] == [];
    assert SubstAlts(alts, subs, fv, n).0 == [Alt(PLabel(l, y), Var(FreshName(y, n + 1), ""))];
    var n' := SubstAlts(alts, subs, fv, n).1;
    assert SubstMany(Error, subs, fv, n').0 == Error;
  }

  /** A payload variable among the names to avoid is renamed in the body but
      not in the pattern, and so left dangling, whatever is substituted. */
  lemma PayloadDangles(l: string, y: Name, subs: Subs, fv: set<Name>, n: nat)
    requires y != "" && y in fv && SetOlder(subs.Keys, n) && Older(y, n)
    ensures !Right(LabelCase(l, y, Var(y, "")), subs, fv, n)
  {
    hide Trans, SubstMany, Extend, Act;
    var f := FreshName(y, n + 1);
    assert f != y by { assert !Older(f, n); }
    DanglingResult(l, y, subs, fv, n);
    LabelTrans(l, y, Var(f, ""));
    LabelTrans(l, y, Var(y, ""));
    VarPasses(y, f);
    VarStays(y);
    LabelBound(OCase([SLabel(l, true)]), NamelessAll(subs));
  }

  lemma VarStays(y: Name)
    ensures Trans(Var(y, ""), Extend(map[], [y])) == Bound(0)
  {
    assert IndexOf([y], y) == 0;
    LookupBound(map[], [y], y);
  }

  lemma LabelBound(op: Op, m: map<Name, Term>)
    ensures Act(Node(op, [Kid(0, Node(OError, [])), Kid(1, Bound(0))]), Globals(m), 0)
         == Node(op, [Kid(0, Node(OError, [])), Kid(1, Bound(0))])
  {
    var kids := [Kid(0, Node(OError, [])), Kid(1, Bound(0))];
    assert ActKids([], Globals(m), 0) == [];
    assert ActKids(kids, Globals(m), 0) == kids;
  }

  lemma LabelUses(l: string, y: Name, P: Names, F: Names, n: nat)
    requires P(y) && Older(y, n)
    ensures Wellnamed(LabelCase(l, y, Var(y, "")), n) && Uses(LabelCase(l, y, Var(y, "")), P, F)
  {
    var e := LabelCase(l, y, Var(y, ""));
    CaseScopes(e);
    var alts := e.alts;
    assert Bindings(alts[0].pat) == [y] || y == "";
    assert AltOk(alts[0], n, Avoid({}, Anything()));
    CaseOk(Error, alts, n, Avoid({}, Anything()));
  }

  lemma ShadowUses(x: Name, y: Name, P: Names, F: Names, n: nat)
    requires F(x) && Older(x, n) && Older(y, n)
    ensures Wellnamed(ShadowingLam(x, y), n) && Uses(ShadowingLam(x, y), P, F)
  {
    LamOk(x, NoTy, Var(y, ""), n, Avoid({}, Anything()));
  }

  /** A simultaneous substitution is right on all terms whose label payloads
      bind names in `P` and whose functions bind names in `F`, if and only if
      `P` has no name to avoid and `F` no crossed name. */
  lemma SubstRightIff(subs: Subs, fv: set<Name>, P: Names, F: Names, n: nat)
    requires Covers(fv, subs) && SetOlder(subs.Keys, n) && SetOlder(fv, n)
    requires !P("") && forall y :: P(y) ==> Older(y, n)
    ensures Apart(P, fv) && Apart(F, Crossed(subs))
       <==> forall e, m :: n <= m && Wellnamed(e, m) && Uses(e, P, F) ==> Right(e, subs, fv, m)
  {
    hide Hygienic, Uses, SubstMany, Right, IsLocal;
    if Apart(P, fv) && Apart(F, Crossed(subs)) {
      forall e, m | n <= m && Wellnamed(e, m) && Uses(e, P, F) ensures Right(e, subs, fv, m) {
        ReadyLater(subs, fv, n, m);
        UsesShuns(e, m, P, F, subs, fv);
        SubstManyRight(e, subs, fv, m);
      }
    } else if !Apart(P, fv) {
      var y :| y in fv && P(y);
      LabelUses("l", y, P, F, n);
      PayloadDangles("l", y, subs, fv, n);
    } else {
      var x :| x in Crossed(subs) && F(x);
      var y :| y in subs && y != x && IsLocal(subs[y], x);
      ShadowUses(x, y, P, F, n);
      ShadowRightIff(subs, fv, n, x, y);
    }
  }

  /** In particular: right on all terms without label payloads if and only if
      no replaced name is free in the replacement of another. */
  lemma RightIffCrossFree(subs: Subs, fv: set<Name>, n: nat)
    requires Covers(fv, subs) && SetOlder(subs.Keys, n) && SetOlder(fv, n)
    ensures CrossFree(subs)
       <==> forall e, m :: n <= m && Wellnamed(e, m) && Uses(e, NoNames(), AllNames()) ==> Right(e, subs, fv, m)
  {
    hide Hygienic, Uses, SubstMany, Right;
    CrossedNone(subs);
    SubstRightIff(subs, fv, NoNames(), AllNames(), n);
    if Crossed(subs) != {} {
      var x :| x in Crossed(subs);
      assert !Apart(AllNames(), Crossed(subs));
    }
  }

  /** And for one name: right on all terms whose label payloads bind names in
      `P` if and only if no name in `P` is free, qualified or not, in the
      replacement. */
  lemma PayloadRightIff(x: Name, r: Core, P: Names, n: nat)
    requires Older(x, n) && SetOlder(FreeNames(r), n) && !P("") && forall y :: P(y) ==> Older(y, n)
    ensures Apart(P, FreeNames(r)) <==> forall e, m ::
      n <= m && Wellnamed(e, m) && Uses(e, P, AllNames()) ==> Right(e, map[x := r], FreeNames(r), m)
  {
    hide Hygienic, Uses, SubstMany, Right, FreeNames;
    assert Crossed(map[x := r]) == {};
    SubstRightIff(map[x := r], FreeNames(r), P, AllNames(), n);
  }
}
