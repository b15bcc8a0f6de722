/**
  Case-of-case and bind-of-case: renaming the inner binders keeps every branch
  what it was and lets the continuation move below them without capture.
 */
module CommuteRules {
  import opened CoreIR
  import opened Nameless
  import opened Translate
  import opened FreshNames
  import opened Subst
  import opened Hygiene
  import opened SubstCorrect
  import opened SubstLimits
  import opened Eval
  import opened Contract
  import opened EraseFacts
  import opened NeatTerms
  import opened Rewrites
  import opened RewriteRight

  // ---- Locals after a renaming ----

  /** Names found in a translation come from the term or from the environment. */
  lemma {:induction false} OccursFrom(e: Core, env: Env, x: Name)
    requires Occurs(Trans(e, env), VarKey("", x))
    ensures (IsLocal(e, x) && x !in env) || exists y :: y in env && IsLocal(e, y) && Occurs(env[y], VarKey("", x))
  {
    if !e.Var? {
      var ss := Scopes(e);
      var i :| 0 <= i < |ss| && Occurs(TransKids(e, ss, env)[i].body, VarKey("", x));
      var env' := Extend(env, ss[i].names);
      OccursFrom(ss[i].body, env', x);
      if IsLocal(ss[i].body, x) && x !in env' {
        LocalInScope(e, i, x);
      } else {
        OccursOut(e, i, env, x);
      }
    }
  }

  lemma OccursOut(e: Core, i: nat, env: Env, x: Name)
    requires !e.Var? && i < |Scopes(e)|
    requires var u := Scopes(e)[i];
      exists y :: y in Extend(env, u.names) && IsLocal(u.body, y) && Occurs(Extend(env, u.names)[y], VarKey("", x))
    ensures exists y :: y in env && IsLocal(e, y) && Occurs(env[y], VarKey("", x))
  {
    var u := Scopes(e)[i];
    var env' := Extend(env, u.names);
    var y :| y in env' && IsLocal(u.body, y) && Occurs(env'[y], VarKey("", x));
    assert y !in u.names;
    OccursShift(env[y], |u.names|, 0, VarKey("", x));
    LocalInScope(e, i, y);
  }

  /** After renaming one variable, only its new name can be a new local. */
  lemma RenamedLocals(b: Core, x: Name, f: Name, n: nat, q: View -> bool, y: Name)
    requires Neat(b, n, q) && Older(x, n) && Older(f, n)
    requires IsLocal(SubstMany(b, map[x := Var(f, "")], {f}, n).0, y)
    ensures IsLocal(b, y) || y == f
  {
    hide IsLocal, Trans, SubstMany, Hygienic, Older;
    var subs, fv := map[x := Var(f, "")], {f};
    VarReady(x, f, n);
    NeatShuns(b, subs, fv, n, q) by { FunsAvoidNone(b); }
    SubstTrans(b, subs, fv, n, map[]);
    LocalOccurs(SubstMany(b, subs, fv, n).0, map[], y);
    var env := Applied(map[], subs);
    FreeIs(f);
    assert env == map[x := Free(VarKey("", f))];
    OccursFrom(b, env, y);
  }

  lemma FreeIs(f: Name)
    ensures Trans(Var(f, ""), map[]) == Free(VarKey("", f))
  {
  }

  lemma VarReady(x: Name, f: Name, n: nat)
    requires Older(x, n) && Older(f, n)
    ensures Ready(map[x := Var(f, "")], {f}, n) && Crossed(map[x := Var(f, "")]) == {}
  {
    assert FreeVars(Var(f, "")) == {VarKey("", f)};
  }

  lemma VarNeat(x: Name, f: Name, n: nat, q: View -> bool)
    requires Older(f, n) && q(VarView(f, ""))
    ensures NeatSubs(map[x := Var(f, "")], n, q)
  {
  }

  // ---- Renaming one binder of an alternative ----

  /** An alternative with the same meaning, its binders renamed. */
  ghost predicate SameAlt(p: Pattern, b: Core, p': Pattern, b': Core) {
    && ShapeOf(p') == ShapeOf(p) && |Bindings(p')| == |Bindings(p)|
    && forall env :: Trans(b', Extend(env, Bindings(p'))) == Trans(b, Extend(env, Bindings(p)))
  }

  lemma SwapLookup(env: Env, bs: seq<Name>, x: Name, f: Name, y: Name)
    requires Distinct(bs) && f !in bs && f != x && y != f
    ensures Lookup(Applied(Extend(env, Swap(bs, x, f)), map[x := Var(f, "")]), y)
         == if y == x && x !in bs then Lookup(Extend(env, Swap(bs, x, f)), f) else Lookup(Extend(env, bs), y)
  {
    hide Shift, Extend;
    var bs' := Swap(bs, x, f);
    assert |bs'| == |bs|;
    assert Distinct(bs');
    if y == x {
      if x in bs {
        var i :| 0 <= i < |bs| && bs[i] == x;
        IndexOfDistinct(bs, i);
        assert bs'[i] == f;
        IndexOfDistinct(bs', i);
        LookupBound(env, bs, x);
        LookupBound(env, bs', f);
      }
    } else if y in bs {
      var i :| 0 <= i < |bs| && bs[i] == y;
      IndexOfDistinct(bs, i);
      assert bs'[i] == y;
      IndexOfDistinct(bs', i);
      LookupBound(env, bs, y);
      LookupBound(env, bs', y);
    } else {
      assert y !in bs';
      LookupPassed(env, bs, y);
      LookupPassed(env, bs', y);
    }
  }

  lemma RenameOne(p: Pattern, b: Core, x: Name, f: Name, n: nat, q: View -> bool)
    requires NeatPattern(p, n) && Neat(b, n, q) && x in Bindings(p) && Older(f, n) && Stable(q, n) && q(VarView(f, ""))
    requires f !in Bindings(p) && !IsLocal(b, f)
    ensures var p', r := RenamePatternVar(p, x, f), SubstMany(b, map[x := Var(f, "")], {f}, n);
      && n <= r.1 && Neat(r.0, r.1, q) && NeatPattern(p', r.1) && SameAlt(p, b, p', r.0)
      && Bindings(p') == Swap(Bindings(p), x, f)
  {
    hide Neat, Stable, FunsAvoid, Crossed, SubstMany, Trans, IsLocal, Bindings, ShapeOf, RenamePatternVar, PayloadVars, Extend, Older;
    var bs, subs, fv := Bindings(p), map[x := Var(f, "")], {f};
    var p', r := RenamePatternVar(p, x, f), SubstMany(b, subs, fv, n);
    RenameSwaps(p, x, f);
    RenameKeeps(p, x, f);
    VarReady(x, f, n);
    VarNeat(x, f, n, q);
    SubstNeat(b, subs, fv, n, q);
    FunsAvoidNone(b);
    NeatShuns(b, subs, fv, n, q);
    forall i | 0 <= i < |bs| ensures Older(Bindings(p')[i], r.1) { OlderLater(if bs[i] == x then f else bs[i], n, r.1); }
    assert Distinct(Bindings(p'));
    forall env ensures Trans(r.0, Extend(env, Bindings(p'))) == Trans(b, Extend(env, bs)) {
      var env' := Extend(env, Bindings(p'));
      SubstTrans(b, subs, fv, n, env');
      forall y | IsLocal(b, y) ensures Lookup(Applied(env', subs), y) == Lookup(Extend(env, bs), y) {
        SwapLookup(env, bs, x, f, y);
      }
      TransAgree(b, Extend(env, bs), Applied(env', subs));
    }
  }

  // ---- The whole renaming loop ----

  predicate DistinctDraws(ds: seq<Draw>) {
    forall i, j :: 0 <= i < j < |ds| ==> ds[i].was != ds[j].was && ds[i].now != ds[j].now
  }

  /** The draws `ds` are for binders of `p`, with new names that occur nowhere. */
  ghost predicate DrawsOk(p: Pattern, b: Core, ds: seq<Draw>, n: nat) {
    && DistinctDraws(ds)
    && (forall i :: 0 <= i < |ds| ==>
         ds[i].was in Bindings(p) && Older(ds[i].now, n) && ds[i].now !in Bindings(p) && !IsLocal(b, ds[i].now))
  }

  /** After the loop, each binder is untouched or has its drawn name. */
  ghost predicate Drawn(bs: seq<Name>, bs': seq<Name>, ds: seq<Draw>) {
    |bs'| == |bs| && forall i :: 0 <= i < |bs| ==> DrawnAt(bs[i], bs'[i], ds)
  }

  ghost predicate DrawnAt(x: Name, x': Name, ds: seq<Draw>) {
    (x' == x && forall j :: 0 <= j < |ds| ==> x != ds[j].was) || exists j :: 0 <= j < |ds| && x == ds[j].was && x' == ds[j].now
  }

  lemma {:induction false} RenameEachRight(p: Pattern, b: Core, ds: seq<Draw>, n: nat, q: View -> bool)
    requires NeatPattern(p, n) && Neat(b, n, q) && DrawsOk(p, b, ds, n) && Stable(q, n)
    requires forall i :: 0 <= i < |ds| ==> q(VarView(ds[i].now, ""))
    ensures var r := RenameEach(p, b, ds, n);
      && n <= r.2 && NeatPattern(r.0, r.2) && Neat(r.1, r.2, q) && SameAlt(p, b, r.0, r.1)
      && Drawn(Bindings(p), Bindings(r.0), ds)
    decreases |ds|
  {
    hide Neat, Stable, NeatPattern, SubstMany, Trans, IsLocal, Bindings, ShapeOf, RenamePatternVar, Extend, Older, Drawn;
    if ds != [] {
      var x, f := ds[0].was, ds[0].now;
      var p1, moved := RenamePatternVar(p, x, f), SubstMany(b, map[x := Var(f, "")], {f}, n);
      RenameOne(p, b, x, f, n, q);
      DrawsRest(p, b, ds, n, q);
      StableLater(q, n, moved.1);
      RenameEachRight(p1, moved.0, ds[1..], moved.1, q);
      var r := RenameEach(p, b, ds, n);
      SameAltTrans(p, b, p1, moved.0, r.0, r.1);
      assert forall j :: 0 <= j < |ds| ==> ds[j].was in Bindings(p);
      DrawnStep(Bindings(p), Bindings(p1), Bindings(r.0), ds);
    } else {
      DrawnNone(Bindings(p));
    }
  }

  lemma DrawnNone(bs: seq<Name>)
    ensures Drawn(bs, bs, [])
  {
  }

  lemma SameAltTrans(p: Pattern, b: Core, p1: Pattern, b1: Core, p2: Pattern, b2: Core)
    requires SameAlt(p, b, p1, b1) && SameAlt(p1, b1, p2, b2)
    ensures SameAlt(p, b, p2, b2)
  {
    hide Trans, ShapeOf, Bindings, Extend;
    forall env ensures Trans(b2, Extend(env, Bindings(p2))) == Trans(b, Extend(env, Bindings(p))) {
      assert Trans(b1, Extend(env, Bindings(p1))) == Trans(b, Extend(env, Bindings(p)));
    }
  }

  lemma DrawsRest(p: Pattern, b: Core, ds: seq<Draw>, n: nat, q: View -> bool)
    requires NeatPattern(p, n) && Neat(b, n, q) && ds != [] && DrawsOk(p, b, ds, n)
    requires Stable(q, n) && q(VarView(ds[0].now, ""))
    ensures var x, f := ds[0].was, ds[0].now;
      var moved := SubstMany(b, map[x := Var(f, "")], {f}, n);
      DrawsOk(RenamePatternVar(p, x, f), moved.0, ds[1..], moved.1)
  {
    hide Neat, Stable, SubstMany, IsLocal, Bindings, RenamePatternVar, PayloadVars, Older;
    var x, f := ds[0].was, ds[0].now;
    var bs, moved := Bindings(p), SubstMany(b, map[x := Var(f, "")], {f}, n);
    RenameSwaps(p, x, f);
    var bs' := Swap(bs, x, f);
    var rest := ds[1..];
    forall i | 0 <= i < |rest|
      ensures rest[i].was in bs' && Older(rest[i].now, moved.1) && rest[i].now !in bs' && !IsLocal(moved.0, rest[i].now)
    {
      assert rest[i] == ds[i + 1];
      var k :| 0 <= k < |bs| && bs[k] == rest[i].was;
      assert bs'[k] == rest[i].was;
      SubstNeat(b, map[x := Var(f, "")], {f}, n, q) by { VarNeat(x, f, n, q); }
      OlderLater(rest[i].now, n, moved.1);
      if IsLocal(moved.0, rest[i].now) { RenamedLocals(b, x, f, n, q, rest[i].now); }
    }
  }

  lemma DrawnStep(bs: seq<Name>, bs1: seq<Name>, bs2: seq<Name>, ds: seq<Draw>)
    requires ds != [] && bs1 == Swap(bs, ds[0].was, ds[0].now) && Drawn(bs1, bs2, ds[1..])
    requires forall j :: 0 <= j < |ds| ==> ds[j].was != ds[0].now
    ensures Drawn(bs, bs2, ds)
  {
    var rest := ds[1..];
    forall i | 0 <= i < |bs| ensures DrawnAt(bs[i], bs2[i], ds) {
      assert DrawnAt(bs1[i], bs2[i], rest);
      if j :| 0 <= j < |rest| && bs1[i] == rest[j].was && bs2[i] == rest[j].now {
        assert ds[j + 1] == rest[j];
      } else if bs[i] == ds[0].was {
        assert bs2[i] == ds[0].now;
      } else {
        forall j | 0 <= j < |ds| ensures bs[i] != ds[j].was { if j > 0 { assert rest[j - 1] == ds[j]; } }
      }
    }
  }

  /** A draw between `n` and `m` for one of the clashing binders. */
  ghost predicate DrawOk(d: Draw, bs: seq<Name>, fv: set<Name>, n: nat, m: nat) {
    d.was in bs && d.was in fv && Older(d.now, m) && !Older(d.now, n) && Fresher(d.was, d.now, n)
  }

  /** The names drawn for the clashing binders. */
  lemma {:induction false} DrawsRight(bs: seq<Name>, fv: set<Name>, n: nat)
    requires Distinct(bs)
    ensures var r := Draws(bs, fv, n);
      n <= r.1 && DistinctDraws(r.0) && forall i :: 0 <= i < |r.0| ==> DrawOk(r.0[i], bs, fv, n, r.1)
  {
    hide DrawOk, FreshName, Older;
    if bs != [] {
      var rest := bs[1..];
      if bs[0] in fv {
        DrawsRight(rest, fv, n + 1);
        var r1, d := Draws(rest, fv, n + 1), Draw(bs[0], FreshName(bs[0], n + 1));
        DrawIsNew(bs[0], n, r1.1);
        DrawIsOk(bs, fv, n, r1.1);
        forall i | 0 <= i < |r1.0| ensures DrawOk(r1.0[i], bs, fv, n, r1.1) && r1.0[i].was != d.was && r1.0[i].now != d.now {
          DrawEarlier(r1.0[i], bs, fv, n + 1, n, r1.1);
        }
      } else {
        DrawsRight(rest, fv, n);
        var r1 := Draws(rest, fv, n);
        forall i | 0 <= i < |r1.0| ensures DrawOk(r1.0[i], bs, fv, n, r1.1) { DrawEarlier(r1.0[i], bs, fv, n, n, r1.1); }
      }
    }
  }

  lemma DrawIsOk(bs: seq<Name>, fv: set<Name>, n: nat, m: nat)
    requires bs != [] && bs[0] in fv && n + 1 <= m
    ensures DrawOk(Draw(bs[0], FreshName(bs[0], n + 1)), bs, fv, n, m)
  {
    hide FreshName, Older;
    DrawIsNew(bs[0], n, m);
  }

  lemma DrawEarlier(d: Draw, bs: seq<Name>, fv: set<Name>, n': nat, n: nat, m: nat)
    requires bs != [] && Distinct(bs) && DrawOk(d, bs[1..], fv, n', m) && n <= n'
    ensures DrawOk(d, bs, fv, n, m) && d.was != bs[0] && !Older(d.now, n')
  {
    hide FreshName, Older;
    if Older(d.now, n) { OlderLater(d.now, n, n'); }
  }

  lemma {:induction false} DrawsCover(bs: seq<Name>, fv: set<Name>, n: nat, b: Name)
    requires b in bs && b in fv
    ensures exists i :: 0 <= i < |Draws(bs, fv, n).0| && Draws(bs, fv, n).0[i].was == b
  {
    hide FreshName;
    var r := Draws(bs, fv, n).0;
    if bs[0] == b {
      assert r[0].was == b;
    } else if bs[0] in fv {
      DrawsCover(bs[1..], fv, n + 1, b);
      var r1 := Draws(bs[1..], fv, n + 1).0;
      var i :| 0 <= i < |r1| && r1[i].was == b;
      assert r[i + 1] == r1[i];
    } else {
      DrawsCover(bs[1..], fv, n, b);
    }
  }

  lemma DrawIsNew(b: Name, n: nat, m: nat)
    requires n + 1 <= m
    ensures Older(FreshName(b, n + 1), n + 1) && Older(FreshName(b, n + 1), m) && !Older(FreshName(b, n + 1), n)
  {
    FreshIsOlder(b, n + 1);
    OlderLater(FreshName(b, n + 1), n + 1, m);
  }

  /** Capture avoidance keeps the meaning of the alternative and leaves no
      binder among the names to avoid. */
  lemma AvoidCaptureRight(p: Pattern, b: Core, fv: set<Name>, n: nat, q: View -> bool)
    requires NeatPattern(p, n) && Neat(b, n, q) && SetOlder(fv, n) && Stable(q, n)
    requires forall x :: x in Bindings(p) ==> q(VarView(x, ""))
    ensures var r := AvoidCapture(p, b, fv, n);
      && n <= r.2 && NeatPattern(r.0, r.2) && Neat(r.1, r.2, q) && SameAlt(p, b, r.0, r.1)
      && FresherAll(Bindings(p), Bindings(r.0), n) && forall z :: z in Bindings(r.0) ==> z !in fv
  {
    hide Neat, Stable, NeatPattern, SameAlt, RenameEach, IsLocal, Bindings, Older, Draws, DrawsOk;
    var bs, d := Bindings(p), Draws(Bindings(p), fv, n);
    FreshDraws(p, b, fv, n, q);
    forall i | 0 <= i < |d.0| ensures q(VarView(d.0[i].now, "")) { AcceptsVar(q, n, d.0[i].was, d.0[i].now); }
    StableLater(q, n, d.1);
    RenameEachRight(p, b, d.0, d.1, q);
    DrawnFresher(bs, Bindings(AvoidCapture(p, b, fv, n).0), d.0, fv, n);
  }

  lemma AcceptsVar(q: View -> bool, n: nat, x: Name, y: Name)
    requires Stable(q, n) && Fresher(x, y, n) && q(VarView(x, ""))
    ensures q(VarView(y, ""))
  {
  }

  lemma DrawnFresher(bs: seq<Name>, bs': seq<Name>, ds: seq<Draw>, fv: set<Name>, n: nat)
    requires Drawn(bs, bs', ds) && forall i :: 0 <= i < |ds| ==> Fresher(ds[i].was, ds[i].now, n) && ds[i].now !in fv
    requires forall x :: x in bs && x in fv ==> exists i :: 0 <= i < |ds| && ds[i].was == x
    ensures FresherAll(bs, bs', n) && forall z :: z in bs' ==> z !in fv
  {
    forall i | 0 <= i < |bs| ensures Fresher(bs[i], bs'[i], n) && bs'[i] !in fv {
      assert DrawnAt(bs[i], bs'[i], ds) && bs[i] in bs;
    }
  }

  lemma FreshDraws(p: Pattern, b: Core, fv: set<Name>, n: nat, q: View -> bool)
    requires NeatPattern(p, n) && Neat(b, n, q) && SetOlder(fv, n)
    ensures var d := Draws(Bindings(p), fv, n);
      && n <= d.1 && DrawsOk(p, b, d.0, d.1) && NeatPattern(p, d.1) && Neat(b, d.1, q)
      && (forall x :: x in Bindings(p) && x in fv ==> exists i :: 0 <= i < |d.0| && d.0[i].was == x)
      && forall i :: 0 <= i < |d.0| ==> d.0[i].now !in fv && d.0[i].was in Bindings(p) && Fresher(d.0[i].was, d.0[i].now, n)
  {
    hide Neat, NeatPattern, IsLocal, Bindings, Older, Draws, DrawsOk;
    NeatNames(p, n);
    DrawsRight(Bindings(p), fv, n);
    var d := Draws(Bindings(p), fv, n);
    forall x | x in Bindings(p) && x in fv ensures exists i :: 0 <= i < |d.0| && d.0[i].was == x {
      DrawsCover(Bindings(p), fv, n, x);
    }
    NeatLater(b, n, d.1, q);
    NeatPatternLater(p, n, d.1);
    NewDrawsOk(p, b, d.0, n, d.1, q);
  }

  /** Names that are not older than the counter occur nowhere yet. */
  lemma NewDrawsOk(p: Pattern, b: Core, ds: seq<Draw>, n: nat, m: nat, q: View -> bool)
    requires NeatPattern(p, n) && Neat(b, n, q)
    requires DistinctDraws(ds)
    requires forall i :: 0 <= i < |ds| ==> ds[i].was in Bindings(p) && Older(ds[i].now, m) && !Older(ds[i].now, n)
    ensures DrawsOk(p, b, ds, m)
  {
    hide Neat, NeatPattern, IsLocal, Bindings, Older, DistinctDraws;
    forall i | 0 <= i < |ds| ensures ds[i].now !in Bindings(p) && !IsLocal(b, ds[i].now) { NewOccursNowhere(p, b, ds[i].now, n, q); }
  }

  lemma NewOccursNowhere(p: Pattern, b: Core, x: Name, n: nat, q: View -> bool)
    requires NeatPattern(p, n) && Neat(b, n, q) && !Older(x, n)
    ensures x !in Bindings(p) && !IsLocal(b, x)
  {
    hide Neat, NeatPattern, IsLocal, Bindings, Older;
    NeatNames(p, n);
    if IsLocal(b, x) { LocalOlder(b, n, q, x); }
  }

  lemma NeatNames(p: Pattern, n: nat)
    requires NeatPattern(p, n)
    ensures Distinct(Bindings(p)) && forall x :: x in Bindings(p) ==> Older(x, n)
  {
  }

  lemma NeatPatternLater(p: Pattern, n: nat, m: nat)
    requires NeatPattern(p, n) && n <= m
    ensures NeatPattern(p, m)
  {
    hide Older, Bindings, PayloadVars;
    var bs := Bindings(p);
    forall i | 0 <= i < |bs| ensures Older(bs[i], m) { OlderLater(bs[i], n, m); }
  }

  lemma LocalOlder(b: Core, n: nat, q: View -> bool, x: Name)
    requires Neat(b, n, q) && IsLocal(b, x)
    ensures Older(x, n)
  {
    hide Neat, Older;
    LocalsAreFree(b, x);
    NeatFree(b, n, q);
    assert VarKey("", x).name in FreeNames(b);
  }

  // ---- Moving the continuation ----

  function FrameOp(fr: Frame): Op {
    match fr
    case InCase(alts) => OCase(ShapesOf(alts))
    case InBind(_, d, _) => OBind(d)
  }

  function FrameKids(fr: Frame, env: Env): seq<Kid> {
    match fr
    case InCase(alts) => ErAlts(alts, env)
    case InBind(x, _, b) => [Kid(1, Er(b, Extend(env, [x])))]
  }

  lemma ErPlug(fr: Frame, e: Core, env: Env)
    ensures Er(Plug(fr, e), env) == Node(FrameOp(fr), [Kid(0, Er(e, env))] + FrameKids(fr, env))
  {
    hide Er;
    if fr.InCase? { ErCase(Plug(fr, e), env); } else { ErBind(Plug(fr, e), env); }
  }

  ghost predicate NeatFrame(fr: Frame, n: nat, q: View -> bool) {
    match fr
    case InCase(alts) => q(CaseView(ShapesOf(alts), NamesOf(alts))) && NeatAlts(alts, n, q)
    case InBind(x, _, b) => q(BindView(x)) && Older(x, n) && Neat(b, n, q)
  }

  lemma NeatPlug(fr: Frame, e: Core, n: nat, q: View -> bool)
    ensures Neat(Plug(fr, e), n, q) <==> Neat(e, n, q) && NeatFrame(fr, n, q)
  {
    hide Neat, Older;
    if fr.InCase? { NeatCase(Plug(fr, e), n, q); } else { NeatBind(Plug(fr, e), n, q); }
  }

  lemma NeatFrameLater(fr: Frame, n: nat, m: nat, q: View -> bool)
    requires NeatFrame(fr, n, q) && n <= m
    ensures NeatFrame(fr, m, q) && SetOlder(FrameNames(fr), n)
  {
    hide Neat, FreeNames, Bindings, PayloadVars;
    if fr.InCase? {
      forall i | 0 <= i < |fr.alts| ensures NeatAlt(fr.alts[i], m, q) && SetOlder(FreeNames(fr.alts[i].body), n) {
        NeatLater(fr.alts[i].body, n, m, q);
        NeatFree(fr.alts[i].body, n, q);
      }
    } else {
      NeatLater(fr.body, n, m, q);
      NeatFree(fr.body, n, q);
    }
  }

  /** A body moved below binders it does not mention is weakened under its own. */
  lemma MovedBody(b: Core, env: Env, bs: seq<Name>, xs: seq<Name>)
    requires forall z :: z in bs ==> z !in FreeNames(b)
    ensures Er(b, Extend(Extend(env, bs), xs)) == Shift(Er(b, Extend(env, xs)), |bs|, |xs|)
  {
    hide Trans, Extend, Lookup, IsLocal, Erase, Act, Shift, FreeNames;
    forall x | IsLocal(b, x)
      ensures Lookup(Extend(Extend(env, bs), xs), x) == Act(Lookup(Extend(env, xs), x), Raise(|bs|), |xs|)
    {
      LocalIsFreeName(b, x);
      LookupPassed(env, bs, x);
      RaiseIsShift(Lookup(env, x), |bs|, 0);
      LookupUnder(env, Extend(env, bs), xs, Raise(|bs|), 0, x);
      assert 0 + |xs| == |xs|;
    }
    TransAct(b, Extend(env, xs), Extend(Extend(env, bs), xs), Raise(|bs|), |xs|);
    RaiseIsShift(Trans(b, Extend(env, xs)), |bs|, |xs|);
    EraseShift(Trans(b, Extend(env, xs)), |bs|, |xs|);
  }

  lemma LocalIsFreeName(b: Core, x: Name)
    requires IsLocal(b, x)
    ensures x in FreeNames(b)
  {
    LocalsAreFree(b, x);
    assert VarKey("", x).name in FreeNames(b);
  }

  lemma MovedFrame(fr: Frame, env: Env, bs: seq<Name>)
    requires forall z :: z in bs ==> z !in FrameNames(fr)
    ensures FrameKids(fr, Extend(env, bs)) == ShiftKids(FrameKids(fr, env), |bs|, 0)
  {
    hide Er, Extend, Shift, FreeNames, Bindings;
    var ks, ks' := FrameKids(fr, env), FrameKids(fr, Extend(env, bs));
    forall i | 0 <= i < |ks| ensures ks'[i] == Kid(ks[i].binds, Shift(ks[i].body, |bs|, 0 + ks[i].binds)) {
      if fr.InCase? {
        MovedBody(fr.alts[i].body, env, bs, Bindings(fr.alts[i].pat));
      } else {
        MovedBody(fr.body, env, bs, [fr.bvar]);
      }
    }
  }

  ghost predicate PushedAlt(alt: Alt, fr: Frame, r: Alt, n0: nat, n: nat, q: View -> bool) {
    && NeatAlt(r, n, q) && SameAltView(alt, r, n0)
    && forall env :: PushedBody(alt, fr, r, env)
  }

  ghost predicate PushedBody(alt: Alt, fr: Frame, r: Alt, env: Env) {
    Er(r.body, Extend(env, Bindings(r.pat)))
      == Node(FrameOp(fr), [Kid(0, Er(alt.body, Extend(env, Bindings(alt.pat))))] + ShiftKids(FrameKids(fr, env), |Bindings(alt.pat)|, 0))
  }

  lemma PushOne(alt: Alt, fr: Frame, n: nat, q: View -> bool)
    requires NeatAlt(alt, n, q) && NeatFrame(fr, n, q) && Stable(q, n)
    requires forall x :: x in Bindings(alt.pat) ==> q(VarView(x, ""))
    ensures var a := AvoidCapture(alt.pat, alt.body, FrameNames(fr), n);
      n <= a.2 && PushedAlt(alt, fr, Alt(a.0, Plug(fr, a.1)), n, a.2, q)
  {
    hide Neat, Stable, Er, Extend, AvoidCapture, FrameNames, FrameKids, FrameOp, Plug, ShiftKids, Bindings, ShapeOf, NeatFrame, NeatPattern, Trans, Older;
    var a := AvoidCapture(alt.pat, alt.body, FrameNames(fr), n);
    NeatFrameLater(fr, n, n, q);
    AvoidCaptureRight(alt.pat, alt.body, FrameNames(fr), n, q);
    NeatFrameLater(fr, n, a.2, q);
    NeatPlug(fr, a.1, a.2, q);
    var r := Alt(a.0, Plug(fr, a.1));
    forall env ensures PushedBody(alt, fr, r, env) {
      var bs, bs' := Bindings(alt.pat), Bindings(a.0);
      ErPlug(fr, a.1, Extend(env, bs'));
      MovedFrame(fr, env, bs');
      assert Trans(a.1, Extend(env, bs')) == Trans(alt.body, Extend(env, bs));
      ErIs(a.1, Extend(env, bs'));
      ErIs(alt.body, Extend(env, bs));
    }
  }

  lemma {:induction false} PushIntoRight(alts: seq<Alt>, fr: Frame, n: nat, q: View -> bool)
    requires NeatAlts(alts, n, q) && NeatFrame(fr, n, q) && Stable(q, n) && BindersAccepted(alts, Avoid({}, q))
    ensures var r := PushInto(alts, fr, n);
      n <= r.1 && forall i :: 0 <= i < |alts| ==> PushedAlt(alts[i], fr, r.0[i], n, r.1, q)
  {
    hide NeatAlt, Stable, Bindings, AvoidCapture, FrameNames, Plug, PushedAlt, NeatFrame;
    if alts != [] {
      var a := AvoidCapture(alts[0].pat, alts[0].body, FrameNames(fr), n);
      PushOne(alts[0], fr, n, q);
      StableLater(q, n, a.2);
      NeatFrameLater(fr, n, a.2, q);
      AltsNeatLater(alts[1..], n, a.2, q);
      PushIntoRight(alts[1..], fr, a.2, q);
      var tail, r := PushInto(alts[1..], fr, a.2), PushInto(alts, fr, n);
      PushedLater(alts[0], fr, Alt(a.0, Plug(fr, a.1)), n, n, a.2, tail.1, q);
      forall i | 0 <= i < |alts| ensures PushedAlt(alts[i], fr, r.0[i], n, r.1, q) {
        if i > 0 { PushedLater(alts[1..][i - 1], fr, tail.0[i - 1], n, a.2, tail.1, tail.1, q); }
      }
    }
  }

  lemma PushedLater(alt: Alt, fr: Frame, r: Alt, n0: nat, n1: nat, n: nat, m: nat, q: View -> bool)
    requires PushedAlt(alt, fr, r, n1, n, q) && n0 <= n1 && n <= m
    ensures PushedAlt(alt, fr, r, n0, m, q)
  {
    hide Neat, PushedBody, Bindings, ShapeOf, PayloadVars, SameAltView;
    NeatLater(r.body, n, m, q);
    AltsNeatLater([r], n, m, q);
    assert NeatAlt([r][0], m, q);
    SameAltSooner(alt, r, n0, n1);
  }

  lemma AltsNeatLater(alts: seq<Alt>, n: nat, m: nat, q: View -> bool)
    requires NeatAlts(alts, n, q) && n <= m
    ensures NeatAlts(alts, m, q)
  {
    hide Neat, Bindings, PayloadVars;
    forall i | 0 <= i < |alts| ensures NeatAlt(alts[i], m, q) { NeatLater(alts[i].body, n, m, q); }
  }

  /** Pushing a frame into the branches of a case is the commuting contraction. */
  lemma PushRight(fr: Frame, inner: Core, n: nat, q: View -> bool)
    requires inner.Case? && Neat(Plug(fr, inner), n, q) && Stable(q, n)
    ensures var r := PushInto(inner.alts, fr, n);
      var e := Case(inner.scrutinee, r.0);
      Right1(Plug(fr, inner), n, q, Became(e, r.1)) && forall env :: CommuteCase(Er(Plug(fr, inner), env), Er(e, env))
  {
    hide Neat, Stable, Er, PushInto, FrameOp, FrameKids, NeatFrame, ShapeOf, Bindings, Pushed, PushedBody, FresherAll;
    NeatPlug(fr, inner, n, q);
    NeatCase(inner, n, q);
    var r := PushInto(inner.alts, fr, n);
    AcceptedBinders(inner.alts, Avoid({}, q), n);
    PushIntoRight(inner.alts, fr, n, q);
    var e := Case(inner.scrutinee, r.0);
    assert NeatAlts(r.0, r.1, q) by {
      forall i | 0 <= i < |r.0| ensures NeatAlt(r.0[i], r.1, q) { assert PushedAlt(inner.alts[i], fr, r.0[i], n, r.1, q); }
    }
    NeatLater(inner.scrutinee, n, r.1, q);
    SameViews(inner.alts, r.0, n) by {
      forall i | 0 <= i < |r.0| ensures SameAltView(inner.alts[i], r.0[i], n) { assert PushedAlt(inner.alts[i], fr, r.0[i], n, r.1, q); }
    }
    AcceptsCase(q, n, inner.alts, r.0);
    NeatCase(e, r.1, q);
    forall env ensures CommuteCase(Er(Plug(fr, inner), env), Er(e, env)) {
      ErPlug(fr, inner, env);
      ErCase(inner, env);
      ErCase(e, env);
      PushedKids(inner.alts, fr, r.0, n, r.1, q, env);
      CaseOpIs(inner);
      FrameOpIs(fr);
      Commutes(FrameOp(fr), Er(inner, env), FrameKids(fr, env), ErAlts(inner.alts, env), Er(inner.scrutinee, env));
    }
  }

  lemma CaseOpIs(c: Core)
    requires c.Case?
    ensures OpOf(c).OCase? && |OpOf(c).pats| == |c.alts|
  {
  }

  lemma FrameOpIs(fr: Frame)
    ensures FrameOp(fr).OCase? || FrameOp(fr).OBind?
  {
  }

  lemma PushedKids(alts: seq<Alt>, fr: Frame, rs: seq<Alt>, n0: nat, n: nat, q: View -> bool, env: Env)
    requires |rs| == |alts| && forall i :: 0 <= i < |alts| ==> PushedAlt(alts[i], fr, rs[i], n0, n, q)
    ensures ErAlts(rs, env) == Pushed(FrameOp(fr), ErAlts(alts, env), FrameKids(fr, env))
  {
    hide Er, FrameKids, FrameOp, Bindings, ShapeOf, ShiftKids, Extend;
    forall i | 0 <= i < |alts|
      ensures ErAlts(rs, env)[i] == Pushed(FrameOp(fr), ErAlts(alts, env), FrameKids(fr, env))[i]
    {
      assert PushedAlt(alts[i], fr, rs[i], n0, n, q) && PushedBody(alts[i], fr, rs[i], env);
    }
  }

  lemma Commutes(op: Op, inner: Term, rest: seq<Kid>, alts: seq<Kid>, s: Term)
    requires (op.OCase? || op.OBind?) && inner.Node? && inner.op.OCase? && |inner.op.pats| == |alts| && inner.kids == [Kid(0, s)] + alts
    ensures CommuteCase(Node(op, [Kid(0, inner)] + rest), Node(inner.op, [Kid(0, s)] + Pushed(op, alts, rest)))
  {
    hide Pushed;
    var u := Node(op, [Kid(0, inner)] + rest);
    assert u.kids[1..] == rest && inner.kids[1..] == alts;
  }

  lemma CaseOfCaseRight(c: Core, n: nat, q: View -> bool)
    requires Neat(c, n, q) && Stable(q, n)
    ensures var o := CaseOfCase(c, n);
      Right1(c, n, q, o) && (o.fired ==> forall env :: CommuteCase(Er(c, env), Er(o.e, env)))
  {
    hide Neat, Stable, Right1, PushInto, Er, CommuteCase;
    if CaseOfCase(c, n).fired {
      assert Plug(InCase(c.alts), c.scrutinee) == c;
      PushRight(InCase(c.alts), c.scrutinee, n, q);
    } else {
      KeptRight(c, n, q);
    }
  }

  lemma BindOfCaseRight(c: Core, n: nat, q: View -> bool)
    requires Neat(c, n, q) && Stable(q, n)
    ensures var o := BindOfCase(c, n);
      Right1(c, n, q, o) && (o.fired ==> forall env :: CommuteCase(Er(c, env), Er(o.e, env)))
  {
    hide Neat, Stable, Right1, PushInto, Er, CommuteCase;
    if BindOfCase(c, n).fired {
      assert Plug(InBind(c.bvar, c.isDiscard, c.body), c.comp) == c;
      PushRight(InBind(c.bvar, c.isDiscard, c.body), c.comp, n, q);
    } else {
      KeptRight(c, n, q);
    }
  }

  // ---- Growth ----

  lemma {:induction false} RenameEachSize(p: Pattern, b: Core, ds: seq<Draw>, n: nat)
    ensures Size(RenameEach(p, b, ds, n).1) == Size(b)
    decreases |ds|
  {
    hide SubstMany;
    if ds != [] {
      var r := SubstMany(b, map[ds[0].was := Var(ds[0].now, "")], {ds[0].now}, n);
      assert Renaming(map[ds[0].was := Var(ds[0].now, "")]);
      RenameEachSize(RenamePatternVar(p, ds[0].was, ds[0].now), r.0, ds[1..], r.1);
    }
  }

  lemma {:induction false} PushIntoSize(alts: seq<Alt>, fr: Frame, n: nat)
    ensures SizeAlts(PushInto(alts, fr, n).0) == SizeAlts(alts) + |alts| * (1 + FrameSize(fr))
  {
    hide AvoidCapture, FrameNames, Size, FrameSize, Plug;
    if alts != [] {
      var a := AvoidCapture(alts[0].pat, alts[0].body, FrameNames(fr), n);
      AvoidSize(alts[0].pat, alts[0].body, FrameNames(fr), n);
      PushIntoSize(alts[1..], fr, a.2);
      PlugSize(fr, a.1);
      var tail, k := PushInto(alts[1..], fr, a.2).0, 1 + FrameSize(fr);
      assert PushInto(alts, fr, n).0 == [Alt(a.0, Plug(fr, a.1))] + tail;
      DistributeMinusOne(|alts|, k);
    }
  }

  lemma PlugSize(fr: Frame, e: Core)
    ensures Size(Plug(fr, e)) == 1 + Size(e) + FrameSize(fr)
  {
  }

  lemma AvoidSize(p: Pattern, b: Core, fv: set<Name>, n: nat)
    ensures Size(AvoidCapture(p, b, fv, n).1) == Size(b)
  {
    var r := Draws(Bindings(p), fv, n);
    RenameEachSize(p, b, r.0, r.1);
  }

  /** A firing case-of-case over n branches adds (n - 1) (1 + S) nodes, where S
      is the size of what is copied, at most the duplication limit. */
  lemma CaseOfCaseGrowth(c: Core, n: nat)
    requires CaseOfCase(c, n).fired
    ensures Size(CaseOfCase(c, n).e) as int == Size(c) + (|c.scrutinee.alts| - 1) * (1 + SizeAlts(c.alts))
    ensures SizeAlts(c.alts) <= MaxDuplicateSize
  {
    hide PushInto, SizeAlts;
    PushIntoSize(c.scrutinee.alts, InCase(c.alts), n);
    DistributeMinusOne(|c.scrutinee.alts|, 1 + SizeAlts(c.alts));
  }

  lemma BindOfCaseGrowth(c: Core, n: nat)
    requires BindOfCase(c, n).fired
    ensures Size(BindOfCase(c, n).e) as int == Size(c) + (|c.comp.alts| - 1) * (1 + Size(c.body))
    ensures Size(c.body) <= MaxDuplicateSize
  {
    hide PushInto, SizeAlts;
    PushIntoSize(c.comp.alts, InBind(c.bvar, c.isDiscard, c.body), n);
    DistributeMinusOne(|c.comp.alts|, 1 + Size(c.body));
  }

  lemma DistributeMinusOne(k: int, m: int)
    ensures (k - 1) * m == k * m - m
  {
  }
}
