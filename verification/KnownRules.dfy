/**
  Case of a known constructor or literal: the rewrite is a contraction whenever
  its guard holds.
 */
module KnownRules {
  import opened CoreIR
  import opened Nameless
  import opened Translate
  import opened FreshNames
  import opened Subst
  import opened Hygiene
  import opened SubstCorrect
  import opened Records
  import opened Eval
  import opened EvalFacts
  import opened Contract
  import opened EraseFacts
  import opened NeatTerms
  import opened Rewrites
  import opened RewriteRight
  import ContractEval

  // ---- Binders in order ----

  function BindingsAll(ps: seq<Pattern>): seq<Name> {
    if ps == [] then [] else Bindings(ps[0]) + BindingsAll(ps[1..])
  }

  function BindingsFields(fs: seq<PField>): seq<Name> {
    if fs == [] then [] else Bindings(fs[0].pat) + BindingsFields(fs[1..])
  }

  lemma {:induction false} FlatArgs(ps: seq<Pattern>)
    ensures Flat(seq(|ps|, i requires 0 <= i < |ps| => Bindings(ps[i]))) == BindingsAll(ps)
  {
    if ps != [] {
      FlatArgs(ps[1..]);
      var ss := seq(|ps|, i requires 0 <= i < |ps| => Bindings(ps[i]));
      assert ss[1..] == seq(|ps[1..]|, i requires 0 <= i < |ps[1..]| => Bindings(ps[1..][i]));
    }
  }

  lemma {:induction false} FlatFields(fs: seq<PField>)
    ensures Flat(seq(|fs|, i requires 0 <= i < |fs| => Bindings(fs[i].pat))) == BindingsFields(fs)
  {
    if fs != [] {
      FlatFields(fs[1..]);
      var ss := seq(|fs|, i requires 0 <= i < |fs| => Bindings(fs[i].pat));
      assert ss[1..] == seq(|fs[1..]|, i requires 0 <= i < |fs[1..]| => Bindings(fs[1..][i].pat));
    }
  }

  function PatShapes(ps: seq<Pattern>): seq<Shape> {
    seq(|ps|, i requires 0 <= i < |ps| => ShapeOf(ps[i]))
  }

  function FieldShapes(fs: seq<PField>): seq<SField> {
    seq(|fs|, i requires 0 <= i < |fs| => SField(fs[i].lbl, ShapeOf(fs[i].pat)))
  }

  lemma {:induction false} WidthIs(p: Pattern)
    ensures Width(ShapeOf(p)) == |Bindings(p)|
    decreases p, 0
  {
    match p
    case PCon(_, _, args) =>
      FlatArgs(args);
      assert ShapeOf(p).args == PatShapes(args);
      WidthAllIs(args);
    case PRecord(fs) =>
      FlatFields(fs);
      assert ShapeOf(p).fields == FieldShapes(fs);
      WidthFieldsIs(fs);
    case _ =>
  }

  lemma {:induction false} WidthAllIs(ps: seq<Pattern>)
    ensures WidthAll(PatShapes(ps)) == |BindingsAll(ps)|
    decreases ps, 1
  {
    if ps != [] {
      WidthIs(ps[0]);
      WidthAllIs(ps[1..]);
      assert PatShapes(ps)[1..] == PatShapes(ps[1..]);
    }
  }

  lemma {:induction false} WidthFieldsIs(fs: seq<PField>)
    ensures WidthFields(FieldShapes(fs)) == |BindingsFields(fs)|
    decreases fs, 1
  {
    if fs != [] {
      assert fs[0].pat < fs[0];
      WidthIs(fs[0].pat);
      WidthFieldsIs(fs[1..]);
      assert FieldShapes(fs)[1..] == FieldShapes(fs[1..]);
    }
  }

  // ---- Patterns that the collected substitution can stand for ----

  /** Every variable of `p` is met when walking along `val`, and every literal
      and constructor on the way is there. */
  predicate Fits(p: Pattern, val: Core) {
    match p
    case PVar(_) => true
    case PWild => true
    case PLit(v) => val == Lit(v)
    case PCon(c, m, args) =>
      val.Con? && val.con == c && val.mod == m && |val.args| == |args|
      && forall i :: 0 <= i < |args| ==> Fits(args[i], val.args[i])
    case PRecord(fs) =>
      forall i :: 0 <= i < |fs| ==> (assert fs[i].pat < fs[i]; Fits(fs[i].pat, FieldTerm(val, fs[i].lbl)))
    case PLabel(_, _) => false
  }

  /** The terms met at the variables, in binding order. */
  function Met(p: Pattern, val: Core): seq<Core> {
    match p
    case PVar(_) => [val]
    case PCon(_, _, args) => if val.Con? && |val.args| == |args| then MetAll(args, val.args) else []
    case PRecord(fs) => MetFields(fs, val)
    case _ => []
  }

  function MetAll(ps: seq<Pattern>, vals: seq<Core>): seq<Core>
    requires |ps| == |vals|
  {
    if ps == [] then [] else Met(ps[0], vals[0]) + MetAll(ps[1..], vals[1..])
  }

  function MetFields(fs: seq<PField>, val: Core): seq<Core> {
    if fs == [] then []
    else assert fs[0].pat < fs[0]; Met(fs[0].pat, FieldTerm(val, fs[0].lbl)) + MetFields(fs[1..], val)
  }

  function PutAll(acc: Collected, xs: seq<Name>, vs: seq<Core>): Collected
    requires |xs| == |vs|
    decreases |xs|
  {
    if xs == [] then acc
    else PutAll(Collected(acc.subs[xs[0] := vs[0]], acc.fv + FreeNames(vs[0])), xs[1..], vs[1..])
  }

  lemma {:induction false} PutAllJoin(acc: Collected, xs: seq<Name>, vs: seq<Core>, ys: seq<Name>, us: seq<Core>)
    requires |xs| == |vs| && |ys| == |us|
    ensures PutAll(PutAll(acc, xs, vs), ys, us) == PutAll(acc, xs + ys, vs + us)
    decreases |xs|
  {
    if xs == [] {
      assert xs + ys == ys && vs + us == us;
    } else {
      assert (xs + ys)[1..] == xs[1..] + ys && (vs + us)[1..] == vs[1..] + us;
      PutAllJoin(Collected(acc.subs[xs[0] := vs[0]], acc.fv + FreeNames(vs[0])), xs[1..], vs[1..], ys, us);
    }
  }

  /** Collecting along a fitting pattern pairs its variables with what is met. */
  lemma {:induction false} CollectFits(p: Pattern, val: Core, acc: Collected)
    requires Fits(p, val)
    ensures |Met(p, val)| == |Bindings(p)| && CollectPatSubs(p, val, acc) == PutAll(acc, Bindings(p), Met(p, val))
    decreases p, 0
  {
    hide FreeNames;
    match p
    case PVar(x) =>
      var next := Collected(acc.subs[x := val], acc.fv + FreeNames(val));
      assert PutAll(next, [x][1..], [val][1..]) == next;
    case PCon(_, _, args) =>
      FlatArgs(args);
      CollectArgsFit(args, val.args, acc);
    case PRecord(fs) =>
      FlatFields(fs);
      CollectFieldsFit(fs, val, acc);
    case _ =>
  }

  lemma {:induction false} CollectArgsFit(ps: seq<Pattern>, vals: seq<Core>, acc: Collected)
    requires |ps| == |vals| && forall i :: 0 <= i < |ps| ==> Fits(ps[i], vals[i])
    ensures |MetAll(ps, vals)| == |BindingsAll(ps)|
    ensures CollectArgSubs(ps, vals, acc) == PutAll(acc, BindingsAll(ps), MetAll(ps, vals))
    decreases ps, 1
  {
    hide FreeNames;
    if ps != [] {
      CollectFits(ps[0], vals[0], acc);
      var mid := CollectPatSubs(ps[0], vals[0], acc);
      CollectArgsFit(ps[1..], vals[1..], mid);
      PutAllJoin(acc, Bindings(ps[0]), Met(ps[0], vals[0]), BindingsAll(ps[1..]), MetAll(ps[1..], vals[1..]));
    }
  }

  lemma {:induction false} CollectFieldsFit(fs: seq<PField>, val: Core, acc: Collected)
    requires forall i :: 0 <= i < |fs| ==> Fits(fs[i].pat, FieldTerm(val, fs[i].lbl))
    ensures |MetFields(fs, val)| == |BindingsFields(fs)|
    ensures CollectFieldSubs(fs, val, acc) == PutAll(acc, BindingsFields(fs), MetFields(fs, val))
    decreases fs, 1
  {
    hide FreeNames, FieldTerm;
    if fs != [] {
      assert fs[0].pat < fs[0];
      var v := FieldTerm(val, fs[0].lbl);
      CollectFits(fs[0].pat, v, acc);
      CollectFieldsFit(fs[1..], val, CollectPatSubs(fs[0].pat, v, acc));
      PutAllJoin(acc, Bindings(fs[0].pat), Met(fs[0].pat, v), BindingsFields(fs[1..]), MetFields(fs[1..], val));
    }
  }

  // ---- The collected terms, erased ----

  lemma ErCon(e: Core, env: Env)
    requires e.Con?
    ensures Er(e, env) == Node(OCon(e.con, e.mod), Args(ErAll(e.args, env)))
  {
    hide Er;
    ErPlain(e, env);
    assert Kids(e) == e.args;
  }

  lemma ErLit(v: Literal, env: Env)
    ensures Er(Lit(v), env) == Node(OLit(v), [])
  {
    hide Er;
    ErPlain(Lit(v), env);
    assert Args(ErAll(Kids(Lit(v)), env)) == [];
  }

  lemma ErAllSplit(a: seq<Core>, b: seq<Core>, env: Env)
    ensures ErAll(a + b, env) == ErAll(a, env) + ErAll(b, env)
    ensures ErAll(a + b, env)[..|a|] == ErAll(a, env) && ErAll(a + b, env)[|a|..] == ErAll(b, env)
  {
    hide Er;
  }

  lemma {:induction false} MetCollects(p: Pattern, val: Core, env: Env)
    requires Fits(p, val)
    ensures Collects(ShapeOf(p), Er(val, env), ErAll(Met(p, val), env))
    decreases p, 0
  {
    hide Er, FieldTerm;
    match p
    case PVar(_) => assert ErAll([val], env) == [Er(val, env)];
    case PWild =>
    case PLit(v) => ErLit(v, env);
    case PCon(c, _, args) =>
      ErCon(val, env);
      var s := Er(val, env);
      assert Bodies(s.kids) == ErAll(val.args, env);
      assert ShapeOf(p).args == PatShapes(args);
      MetAllCollects(args, val.args, env);
    case PRecord(fs) =>
      assert ShapeOf(p).fields == FieldShapes(fs);
      MetFieldsCollects(fs, val, env);
    case PLabel(_, _) =>
  }

  lemma {:induction false} MetAllCollects(ps: seq<Pattern>, vals: seq<Core>, env: Env)
    requires |ps| == |vals| && forall i :: 0 <= i < |ps| ==> Fits(ps[i], vals[i])
    ensures CollectsAll(PatShapes(ps), ErAll(vals, env), ErAll(MetAll(ps, vals), env))
    decreases ps, 1
  {
    hide Er, Collects, Fits, Width, Met;
    if ps != [] {
      MetCollects(ps[0], vals[0], env);
      MetAllCollects(ps[1..], vals[1..], env);
      CollectFits(ps[0], vals[0], Collected(map[], {}));
      WidthIs(ps[0]);
      ErAllSplit(Met(ps[0], vals[0]), MetAll(ps[1..], vals[1..]), env);
      assert PatShapes(ps)[1..] == PatShapes(ps[1..]) && ErAll(vals, env)[1..] == ErAll(vals[1..], env);
      assert PatShapes(ps)[0] == ShapeOf(ps[0]) && ErAll(vals, env)[0] == Er(vals[0], env);
    }
  }

  /** The field a record pattern looks at, erased. */
  lemma FieldTermErased(val: Core, l: string, env: Env)
    ensures var s, f := Er(val, env), Er(FieldTerm(val, l), env);
      f == ProjOf(s, l) || (IsLiteralRecord(s) && Get(FieldsOf(s), l) == Just(f))
  {
    hide Er;
    if val.RecordLit? && FieldIndex(val.fields, l) < |val.fields| {
      ErRecord(val, env);
      FieldIndexGet(val.fields, l, env);
    } else {
      ErOne(RecordProj(val, l), val, env);
    }
  }

  lemma {:induction false} MetFieldsCollects(fs: seq<PField>, val: Core, env: Env)
    requires forall i :: 0 <= i < |fs| ==> Fits(fs[i].pat, FieldTerm(val, fs[i].lbl))
    ensures CollectsFields(FieldShapes(fs), Er(val, env), ErAll(MetFields(fs, val), env))
    decreases fs, 1
  {
    hide Er, Collects, Fits, Width, FieldTerm, Met, IsLiteralRecord, Get, FieldsOf;
    if fs != [] {
      assert fs[0].pat < fs[0];
      var v := FieldTerm(val, fs[0].lbl);
      MetCollects(fs[0].pat, v, env);
      MetFieldsCollects(fs[1..], val, env);
      CollectFits(fs[0].pat, v, Collected(map[], {}));
      WidthIs(fs[0].pat);
      FieldTermErased(val, fs[0].lbl, env);
      ErAllSplit(Met(fs[0].pat, v), MetFields(fs[1..], val), env);
      assert FieldShapes(fs)[1..] == FieldShapes(fs[1..]);
      assert FieldShapes(fs)[0] == SField(fs[0].lbl, ShapeOf(fs[0].pat));
    }
  }

  // ---- Substituting what was collected ----

  /** What `PutAll` leaves: later pairs win, earlier keys stay. */
  lemma {:induction false} PutAllIs(acc: Collected, xs: seq<Name>, vs: seq<Core>)
    requires |xs| == |vs| && Distinct(xs)
    ensures var r := PutAll(acc, xs, vs);
      && r.subs.Keys == acc.subs.Keys + (set x | x in xs)
      && (forall i :: 0 <= i < |xs| ==> r.subs[xs[i]] == vs[i] && FreeNames(vs[i]) <= r.fv)
      && (forall y :: y in acc.subs && y !in xs ==> r.subs[y] == acc.subs[y])
      && acc.fv <= r.fv
      && (forall x :: x in r.fv ==> x in acc.fv || exists i :: 0 <= i < |vs| && x in FreeNames(vs[i]))
    decreases |xs|
  {
    hide FreeNames;
    if xs != [] {
      var next := Collected(acc.subs[xs[0] := vs[0]], acc.fv + FreeNames(vs[0]));
      PutAllIs(next, xs[1..], vs[1..]);
      var r := PutAll(acc, xs, vs);
      assert r == PutAll(next, xs[1..], vs[1..]);
      assert (set x | x in xs) == {xs[0]} + (set x | x in xs[1..]);
      forall i | 0 <= i < |xs| ensures r.subs[xs[i]] == vs[i] && FreeNames(vs[i]) <= r.fv {
        if i > 0 { assert xs[1..][i - 1] == xs[i] && vs[1..][i - 1] == vs[i]; }
      }
      forall x | x in r.fv && x !in acc.fv ensures exists i :: 0 <= i < |vs| && x in FreeNames(vs[i]) {
        if x !in FreeNames(vs[0]) {
          var i :| 0 <= i < |vs[1..]| && x in FreeNames(vs[1..][i]);
          assert vs[1..][i] == vs[i + 1];
        }
      }
    }
  }

  function TransAll(vs: seq<Core>, env: Env): seq<Term> {
    seq(|vs|, i requires 0 <= i < |vs| => Trans(vs[i], env))
  }

  lemma AssignedAt(env: Env, xs: seq<Name>, vs: seq<Core>, i: nat)
    requires |xs| == |vs| && Distinct(xs) && i < |xs|
    ensures xs[i] in Assign(env, xs, Rev(TransAll(vs, env)))
    ensures Assign(env, xs, Rev(TransAll(vs, env)))[xs[i]] == Trans(vs[i], env)
  {
    hide Trans, IndexOf;
    IndexOfDistinct(xs, i);
    assert Rev(TransAll(vs, env))[|xs| - 1 - i] == TransAll(vs, env)[i];
  }

  lemma AssignedElse(env: Env, xs: seq<Name>, us: seq<Term>, x: Name)
    requires |xs| == |us| && x !in xs
    ensures x in Assign(env, xs, us) <==> x in env
    ensures x in env ==> Assign(env, xs, us)[x] == env[x]
  {
    hide IndexOf;
  }

  /** The collected substitution gives each binder its term, by index. */
  lemma AppliedAll(env: Env, subs: Subs, xs: seq<Name>, vs: seq<Core>)
    requires |xs| == |vs| && Distinct(xs) && forall x :: x in subs <==> x in xs
    requires forall i :: 0 <= i < |xs| ==> subs[xs[i]] == vs[i]
    ensures Applied(env, subs) == Assign(env, xs, Rev(TransAll(vs, env)))
  {
    hide Trans, Assign;
    var a, b := Applied(env, subs), Assign(env, xs, Rev(TransAll(vs, env)));
    forall x ensures (x in a <==> x in b) && (x in a ==> a[x] == b[x]) {
      if x in xs {
        var i :| 0 <= i < |xs| && xs[i] == x;
        AssignedAt(env, xs, vs, i);
      } else {
        AssignedElse(env, xs, Rev(TransAll(vs, env)), x);
      }
    }
  }

  lemma {:induction false} MetNeat(p: Pattern, val: Core, n: nat, q: View -> bool)
    requires Neat(val, n, q) && q(OtherView)
    ensures NeatAll(Met(p, val), n, q)
    decreases p, 0
  {
    hide Neat;
    match p
    case PVar(_) =>
    case PCon(_, _, args) =>
      if val.Con? && |val.args| == |args| {
        NeatPlain(val, n, q);
        assert Kids(val) == val.args;
        MetAllNeat(args, val.args, n, q);
      }
    case PRecord(fs) => MetFieldsNeat(fs, val, n, q);
    case _ =>
  }

  lemma {:induction false} MetAllNeat(ps: seq<Pattern>, vals: seq<Core>, n: nat, q: View -> bool)
    requires |ps| == |vals| && NeatAll(vals, n, q) && q(OtherView)
    ensures NeatAll(MetAll(ps, vals), n, q)
    decreases ps, 1
  {
    hide Neat, Met;
    if ps != [] {
      MetNeat(ps[0], vals[0], n, q);
      MetAllNeat(ps[1..], vals[1..], n, q);
    }
  }

  lemma {:induction false} MetFieldsNeat(fs: seq<PField>, val: Core, n: nat, q: View -> bool)
    requires Neat(val, n, q) && q(OtherView)
    ensures NeatAll(MetFields(fs, val), n, q)
    decreases fs, 1
  {
    hide Neat, Met, FieldTerm;
    if fs != [] {
      assert fs[0].pat < fs[0];
      FieldTermNeat(val, fs[0].lbl, n, q);
      MetNeat(fs[0].pat, FieldTerm(val, fs[0].lbl), n, q);
      MetFieldsNeat(fs[1..], val, n, q);
    }
  }

  lemma FieldTermNeat(val: Core, l: string, n: nat, q: View -> bool)
    requires Neat(val, n, q) && q(OtherView)
    ensures Neat(FieldTerm(val, l), n, q)
  {
    hide Neat;
    if val.RecordLit? && FieldIndex(val.fields, l) < |val.fields| {
      NeatPlain(val, n, q);
      assert Kids(val)[FieldIndex(val.fields, l)] == FieldTerm(val, l);
    } else {
      NeatPlain(RecordProj(val, l), n, q);
      assert Kids(RecordProj(val, l)) == [val];
    }
  }

  // ---- The guards ----

  /** `p` fails on every constructor `con` with `k` arguments. */
  predicate MissesCon(p: Pattern, con: string, k: nat) {
    p.PLit? || p.PRecord? || p.PLabel? || (p.PCon? && (p.con != con || |p.args| != k))
  }

  /** `p` fails on every literal but `v`, and on `v` too. */
  predicate MissesLit(p: Pattern, v: Literal) {
    p.PCon? || p.PRecord? || p.PLabel? || (p.PLit? && p.value != v)
  }

  /** `p` matches whatever `val` evaluates to. */
  predicate Sure(p: Pattern, val: Core) {
    match p
    case PVar(_) => true
    case PWild => true
    case PLit(v) => val == Lit(v)
    case PCon(c, _, args) =>
      val.Con? && val.con == c && |val.args| == |args| && forall i :: 0 <= i < |args| ==> Sure(args[i], val.args[i])
    case PRecord(fs) =>
      val.RecordLit? && forall i :: 0 <= i < |fs| ==>
        (assert fs[i].pat < fs[i];
         var j := FieldIndex(val.fields, fs[i].lbl); j < |val.fields| && Sure(fs[i].pat, val.fields[j].value))
    case PLabel(_, _) => false
  }

  function CtorSubs(c: Core): Subs
    requires c.Case? && c.scrutinee.Con?
  {
    var i := CtorAlt(c.alts, c.scrutinee.con, c.scrutinee.mod);
    if i == |c.alts| then map[] else CollectArgSubs(c.alts[i].pat.args, c.scrutinee.args, Collected(map[], {})).subs
  }

  /** When case-of-known-constructor fires, it takes the alternative first-match
      evaluation would take, all of its variables are collected, and no function
      in the alternative binds a pattern variable that is free in what replaces
      another. */
  ghost predicate CtorGuard(c: Core) {
    CaseOfKnownCtor(c, 0).fired ==>
      var con := c.scrutinee;
      var i, k := CtorAlt(c.alts, con.con, con.mod), |con.args|;
      && Fits(c.alts[i].pat, con)
      && (forall j :: 0 <= j < i ==> MissesCon(c.alts[j].pat, con.con, k))
      && (Sure(c.alts[i].pat, con) || forall j :: i < j < |c.alts| ==> MissesCon(c.alts[j].pat, con.con, k))
      && FunsAvoid(c.alts[i].body, Crossed(CtorSubs(c)))
  }

  /** When case-of-known-literal fires, no wildcard comes before its choice. */
  predicate LitGuard(c: Core) {
    CaseOfKnownLit(c, 0).fired ==>
      forall j :: 0 <= j < LitAlt(c.alts, c.scrutinee.value, 0, |c.alts|) ==> !c.alts[j].pat.PWild?
  }

  lemma {:induction false} SureCertain(p: Pattern, val: Core, env: Env)
    requires Sure(p, val)
    ensures Certain(ShapeOf(p), Er(val, env))
  {
    hide Er;
    match p
    case PVar(_) =>
    case PWild =>
    case PLit(v) => ErLit(v, env);
    case PCon(_, _, args) =>
      ErCon(val, env);
      forall i | 0 <= i < |args| ensures Certain(ShapeOf(args[i]), Er(val, env).kids[i].body) {
        SureCertain(args[i], val.args[i], env);
      }
      assert forall i :: 0 <= i < |args| ==> ShapeOf(p).args[i] == ShapeOf(args[i]);
    case PRecord(fs) =>
      ErRecord(val, env);
      var s, shapes := Er(val, env), ShapeOf(p).fields;
      forall i | 0 <= i < |fs|
        ensures Get(FieldsOf(s), shapes[i].lbl).Just? && Certain(shapes[i].pat, Get(FieldsOf(s), shapes[i].lbl).value)
      {
        assert fs[i].pat < fs[i];
        FieldIndexGet(val.fields, fs[i].lbl, env);
        SureCertain(fs[i].pat, val.fields[FieldIndex(val.fields, fs[i].lbl)].value, env);
      }
    case PLabel(_, _) =>
  }

  // ---- The two rewrites ----

  lemma OpShapes(c: Core)
    requires c.Case?
    ensures OpOf(c).OCase? && |OpOf(c).pats| == |c.alts|
    ensures forall i :: 0 <= i < |c.alts| ==> OpOf(c).pats[i] == ShapeOf(c.alts[i].pat)
  {
  }

  lemma CtorPicks(c: Core, env: Env, i: nat)
    requires c.Case? && c.scrutinee.Con? && i < |c.alts|
    requires forall j :: 0 <= j < i ==> MissesCon(c.alts[j].pat, c.scrutinee.con, |c.scrutinee.args|)
    requires Sure(c.alts[i].pat, c.scrutinee)
          || forall j :: i < j < |c.alts| ==> MissesCon(c.alts[j].pat, c.scrutinee.con, |c.scrutinee.args|)
    ensures |OpOf(c).pats| == |c.alts| && Picks(OpOf(c).pats, Er(c.scrutinee, env), i)
  {
    hide Er, Certain, OpOf, Sure;
    OpShapes(c);
    ErCon(c.scrutinee, env);
    var ps, s := OpOf(c).pats, Er(c.scrutinee, env);
    forall j | 0 <= j < |c.alts| && MissesCon(c.alts[j].pat, c.scrutinee.con, |c.scrutinee.args|)
      ensures Misses(ps[j], s)
    {
    }
    if Sure(c.alts[i].pat, c.scrutinee) { SureCertain(c.alts[i].pat, c.scrutinee, env); }
  }

  /** Substituting the collected terms fills the alternative with them. */
  lemma CtorSubst(b: Core, xs: seq<Name>, vs: seq<Core>, n: nat, q: View -> bool, env: Env)
    requires |xs| == |vs| && Distinct(xs) && AllOlder(xs, n) && Neat(b, n, q) && NeatAll(vs, n, q) && Stable(q, n)
    requires FunsAvoid(b, Crossed(PutAll(Collected(map[], {}), xs, vs).subs))
    ensures var col := PutAll(Collected(map[], {}), xs, vs);
      var r := if |col.subs| == 0 then (b, n) else SubstMany(b, col.subs, col.fv, n);
      && n <= r.1 && Neat(r.0, r.1, q)
      && Er(r.0, env) == Instantiate(Er(b, Extend(env, xs)), Rev(ErAll(vs, env)))
  {
    hide Trans, Neat, SubstMany, Act, FreeNames, Older, Crossed, FunsAvoid, Stable, Applied, Assign, PutAll, Erase;
    var col := PutAll(Collected(map[], {}), xs, vs);
    PutAllIs(Collected(map[], {}), xs, vs);
    var us := Rev(TransAll(vs, env));
    AppliedAll(env, col.subs, xs, vs);
    ErInst(b, env, xs, us);
    ErasedValues(vs, env);
    if |col.subs| == 0 {
      AppliedNil(env, col.subs);
    } else {
      forall y | y in col.subs ensures Neat(col.subs[y], n, q) { var i :| 0 <= i < |xs| && xs[i] == y; }
      SubstNeat(b, col.subs, col.fv, n, q);
      CollectedReady(col, xs, vs, n, q);
      NeatShuns(b, col.subs, col.fv, n, q);
      SubstTrans(b, col.subs, col.fv, n, env);
    }
  }

  lemma ErasedValues(vs: seq<Core>, env: Env)
    ensures EraseAll(Rev(TransAll(vs, env))) == Rev(ErAll(vs, env))
  {
    hide Trans, Erase;
  }

  lemma CollectedReady(col: Collected, xs: seq<Name>, vs: seq<Core>, n: nat, q: View -> bool)
    requires |xs| == |vs| && Distinct(xs) && AllOlder(xs, n) && NeatAll(vs, n, q)
    requires col == PutAll(Collected(map[], {}), xs, vs)
    ensures Ready(col.subs, col.fv, n)
  {
    hide Neat, FreeNames, Older;
    PutAllIs(Collected(map[], {}), xs, vs);
    forall y | y in col.subs ensures FreeNames(col.subs[y]) <= col.fv && Older(y, n) {
      var i :| 0 <= i < |xs| && xs[i] == y;
    }
    forall x | x in col.fv ensures Older(x, n) {
      var i :| 0 <= i < |vs| && x in FreeNames(vs[i]);
      NeatFree(vs[i], n, q);
    }
  }

  /** `e` is the alternative `i` of the known case `c`. */
  ghost predicate KnownAt(c: Core, i: nat, e: Core, env: Env) { exists cs :: KnownCaseAt(Er(c, env), Er(e, env), i, cs) }

  lemma KnownRight(c: Core, n: nat, q: View -> bool, i: nat, o: Out)
    requires n <= o.n && Neat(o.e, o.n, q) && forall env :: KnownAt(c, i, o.e, env)
    ensures Right1(c, n, q, o)
  {
    hide Er, Neat, KnownCaseAt;
    forall env ensures SameOrContracts(Er(c, env), Er(o.e, env)) {
      assert KnownAt(c, i, o.e, env);
      var cs :| KnownCaseAt(Er(c, env), Er(o.e, env), i, cs);
      assert KnownCase(Er(c, env), Er(o.e, env));
    }
  }

  lemma CaseOfKnownCtorRight(c: Core, n: nat, q: View -> bool)
    requires Neat(c, n, q) && Stable(q, n) && CtorGuard(c)
    ensures var o := CaseOfKnownCtor(c, n);
      Right1(c, n, q, o) && (o.fired ==> forall env :: KnownAt(c, CtorAlt(c.alts, c.scrutinee.con, c.scrutinee.mod), o.e, env))
  {
    hide Er, Right1, Neat, Stable, SubstMany, Act, FreeNames, Picks, Collects, Crossed, FunsAvoid, Fits, Sure, Bindings, CollectArgSubs, Met, MissesCon;
    var o := CaseOfKnownCtor(c, n);
    if o.fired {
      assert CaseOfKnownCtor(c, 0).fired;
      var con := c.scrutinee;
      var i := CtorAlt(c.alts, con.con, con.mod);
      var alt := c.alts[i];
      var xs, vs := Bindings(alt.pat), Met(alt.pat, con);
      NeatCase(c, n, q);
      assert NeatAlt(alt, n, q);
      OtherOk(q, n);
      MetNeat(alt.pat, con, n, q);
      CtorCollected(c, i);
      forall env
        ensures n <= o.n && Neat(o.e, o.n, q) && Er(o.e, env) == Instantiate(Er(alt.body, Extend(env, xs)), Rev(ErAll(vs, env)))
      {
        CtorSubst(alt.body, xs, vs, n, q, env);
      }
      assert n <= o.n && Neat(o.e, o.n, q) by { CtorSubst(alt.body, xs, vs, n, q, map[]); }
      forall env ensures KnownAt(c, i, o.e, env) {
        ErCase(c, env);
        CtorPicks(c, env, i);
        MetCollects(alt.pat, con, env);
        OpShapes(c);
        var u := Er(c, env);
        assert u.kids[i + 1] == ErAlts(c.alts, env)[i];
        assert KnownCaseAt(u, Er(o.e, env), i, ErAll(vs, env));
      }
      KnownRight(c, n, q, i, o);
    } else {
      KeptRight(c, n, q);
    }
  }

  /** Collecting from the arguments is collecting from the whole alternative. */
  lemma CtorCollected(c: Core, i: nat)
    requires c.Case? && c.scrutinee.Con? && i < |c.alts|
    requires c.alts[i].pat.PCon? && Fits(c.alts[i].pat, c.scrutinee)
    ensures var p, con := c.alts[i].pat, c.scrutinee;
      && |Met(p, con)| == |Bindings(p)|
      && CollectArgSubs(p.args, con.args, Collected(map[], {})) == PutAll(Collected(map[], {}), Bindings(p), Met(p, con))
  {
    hide PutAll, CollectArgSubs;
    CollectFits(c.alts[i].pat, c.scrutinee, Collected(map[], {}));
  }

  lemma {:induction false} LitAltIs(alts: seq<Alt>, v: Literal, from: nat, wildcard: nat)
    requires from <= |alts| && wildcard <= |alts|
    requires wildcard < |alts| ==> wildcard < from && alts[wildcard].pat.PWild?
    ensures var i := LitAlt(alts, v, from, wildcard);
      && (i < |alts| ==> alts[i].pat == PLit(v) || alts[i].pat.PVar? || alts[i].pat.PWild?)
      && forall j :: from <= j < i < |alts| ==> alts[j].pat.PWild? || MissesLit(alts[j].pat, v)
    decreases |alts| - from
  {
    if from < |alts| {
      match alts[from].pat
      case PLit(u) => if u != v { LitAltIs(alts, v, from + 1, wildcard); }
      case PVar(_) =>
      case PWild => LitAltIs(alts, v, from + 1, from);
      case _ => LitAltIs(alts, v, from + 1, wildcard);
    }
  }

  lemma LitPicks(c: Core, env: Env, i: nat)
    requires c.Case? && c.scrutinee.Lit? && i < |c.alts|
    requires forall j :: 0 <= j < i ==> MissesLit(c.alts[j].pat, c.scrutinee.value)
    requires c.alts[i].pat == PLit(c.scrutinee.value) || c.alts[i].pat.PVar? || c.alts[i].pat.PWild?
    ensures OpOf(c).OCase? && |OpOf(c).pats| == |c.alts| && Picks(OpOf(c).pats, Er(c.scrutinee, env), i)
  {
    hide Er, OpOf;
    OpShapes(c);
    ErLit(c.scrutinee.value, env);
  }

  lemma CaseOfKnownLitRight(c: Core, n: nat, q: View -> bool)
    requires Neat(c, n, q) && Stable(q, n) && LitGuard(c)
    ensures var o := CaseOfKnownLit(c, n);
      Right1(c, n, q, o) && (o.fired ==> forall env :: KnownAt(c, LitAlt(c.alts, c.scrutinee.value, 0, |c.alts|), o.e, env))
  {
    hide Er, Right1, Neat, Stable, SubstFV, Act, FreeNames, Picks, LitAlt, OpOf, MissesLit;
    var o := CaseOfKnownLit(c, n);
    if o.fired {
      assert CaseOfKnownLit(c, 0).fired;
      var v := c.scrutinee.value;
      var i := LitAlt(c.alts, v, 0, |c.alts|);
      LitAltIs(c.alts, v, 0, |c.alts|);
      var alt := c.alts[i];
      var xs := Bindings(alt.pat);
      NeatCase(c, n, q);
      assert NeatAlt(alt, n, q);
      if alt.pat.PVar? {
        assert xs == [alt.pat.name] && xs[0] == alt.pat.name;
        SubstOne(alt.body, xs[0], c.scrutinee, n, q, map[]);
      }
      forall env ensures KnownAt(c, i, o.e, env) {
        ErCase(c, env);
        ErLit(v, env);
        LitPicks(c, env, i);
        OpShapes(c);
        var u, cs := Er(c, env), if alt.pat.PVar? then [Er(c.scrutinee, env)] else [];
        if alt.pat.PVar? {
          SubstOne(alt.body, xs[0], c.scrutinee, n, q, env);
        } else {
          ExtendNil(env);
          InstNil(Er(alt.body, env));
        }
        assert u.kids[i + 1] == ErAlts(c.alts, env)[i] && Rev(cs) == cs;
        assert KnownCaseAt(u, Er(o.e, env), i, cs);
      }
      KnownRight(c, n, q, i, o);
    } else {
      KeptRight(c, n, q);
    }
  }

  /** The literal rewrite takes the alternative that first-match evaluation
      takes exactly when no wildcard comes before it. */
  lemma LitFirstIff(c: Core, n: nat)
    requires c.Case? && c.scrutinee.Lit? && CaseOfKnownLit(c, n).fired
    ensures LitGuard(c) <==>
      var r := FirstMatch(ShapesOf(c.alts), Node(OLit(c.scrutinee.value), []), 0);
      r.Choice? && r.index == LitAlt(c.alts, c.scrutinee.value, 0, |c.alts|)
  {
    hide LitAlt;
    var v := c.scrutinee.value;
    var i, ps, s := LitAlt(c.alts, v, 0, |c.alts|), ShapesOf(c.alts), Node(OLit(v), []);
    LitAltIs(c.alts, v, 0, |c.alts|);
    assert CaseOfKnownLit(c, 0).fired;
    assert Match(ps[i], s).Just?;
    if LitGuard(c) {
      forall j | 0 <= j < i ensures Match(ps[j], s).Nothing? { assert MissesLit(c.alts[j].pat, v); }
      ContractEval.FirstMatchIs(ps, s, 0, i);
    } else {
      var j :| 0 <= j < i && c.alts[j].pat.PWild?;
      FirstNotAfter(ps, s, 0, j);
    }
  }

  lemma {:induction false} FirstNotAfter(ps: seq<Shape>, v: Term, from: nat, j: nat)
    requires from <= j < |ps| && Match(ps[j], v).Just?
    ensures FirstMatch(ps, v, from).Choice? && FirstMatch(ps, v, from).index <= j
    decreases j - from
  {
    if from < j && Match(ps[from], v).Nothing? { FirstNotAfter(ps, v, from + 1, j); }
  }

  // ---- The constructor rewrite against first-match evaluation ----

  /** On every saturated value of the constructor, evaluation takes alternative `i`. */
  ghost predicate AlwaysFirst(ps: seq<Shape>, con: string, mod: string, k: nat, i: nat) {
    forall vs: seq<Term> :: |vs| == k ==>
      FirstMatch(ps, Node(OCon(con, mod), Args(vs)), 0).Choice? && FirstMatch(ps, Node(OCon(con, mod), Args(vs)), 0).index == i
  }

  /** A term on which a refutable pattern fails. */
  function Refuter(p: Shape): Term {
    if p.SLit? then Node(OCon("", ""), []) else Node(OLit(IntLit(0)), [])
  }

  lemma {:induction false} AllMatchEach(ps: seq<Shape>, vs: seq<Term>, q: nat)
    requires |ps| == |vs| && q < |ps| && MatchAll(ps, vs).Just?
    ensures Match(ps[q], vs[q]).Just?
  {
    if q > 0 { AllMatchEach(ps[1..], vs[1..], q - 1); }
  }

  lemma {:induction false} CtorAltFirst(alts: seq<Alt>, con: string, mod: string)
    ensures var i := CtorAlt(alts, con, mod);
      forall j :: 0 <= j < i ==> !(alts[j].pat.PCon? && alts[j].pat.con == con && alts[j].pat.mod == mod)
  {
    if alts != [] {
      CtorAltFirst(alts[1..], con, mod);
      var i := CtorAlt(alts[1..], con, mod);
      assert forall j :: 0 < j <= i && j < |alts| ==> alts[j] == alts[1..][j - 1];
    }
  }

  /** The alternative the constructor rewrite takes is the one that evaluation
      takes, whatever the arguments evaluate to, exactly when no catch-all
      comes before it, the constructor is saturated, and its sub-patterns are
      variables and wildcards. */
  lemma CtorFirstIff(c: Core, n: nat)
    requires c.Case? && c.scrutinee.Con? && CaseOfKnownCtor(c, n).fired
    requires forall j ::
      0 <= j < |c.alts| && c.alts[j].pat.PCon? && c.alts[j].pat.con == c.scrutinee.con ==> c.alts[j].pat.mod == c.scrutinee.mod
    ensures var con := c.scrutinee; var i := CtorAlt(c.alts, con.con, con.mod);
      AlwaysFirst(ShapesOf(c.alts), con.con, con.mod, |con.args|, i)
      <==> CtorFlat(c.alts, i, |con.args|)
  {
    hide Match, CaseOfKnownCtor, CtorAlt;
    var con := c.scrutinee;
    var i, k := CtorAlt(c.alts, con.con, con.mod), |con.args|;
    CtorFires(c, n);
    CtorAltFirst(c.alts, con.con, con.mod);
    if CtorFlat(c.alts, i, k) {
      FlatAlwaysFirst(c.alts, con.con, con.mod, k, i);
    } else {
      NotFlatNotFirst(c.alts, con.con, con.mod, k, i);
    }
  }

  lemma CtorFires(c: Core, n: nat)
    requires c.Case? && c.scrutinee.Con?
    ensures CaseOfKnownCtor(c, n).fired <==> CtorAlt(c.alts, c.scrutinee.con, c.scrutinee.mod) < |c.alts|
  {
    hide SubstMany, CollectArgSubs;
  }

  predicate CtorFlat(alts: seq<Alt>, i: nat, k: nat)
    requires i < |alts| && alts[i].pat.PCon?
  {
    && (forall j :: 0 <= j < i ==> !alts[j].pat.PVar? && !alts[j].pat.PWild?)
    && |alts[i].pat.args| == k
    && forall q :: 0 <= q < k ==> alts[i].pat.args[q].PVar? || alts[i].pat.args[q].PWild?
  }

  lemma FlatAlwaysFirst(alts: seq<Alt>, con: string, mod: string, k: nat, i: nat)
    requires i < |alts| && alts[i].pat.PCon? && alts[i].pat.con == con && CtorFlat(alts, i, k)
    requires forall j :: 0 <= j < i && alts[j].pat.PCon? ==> alts[j].pat.con != con
    ensures AlwaysFirst(ShapesOf(alts), con, mod, k, i)
  {
    var ps := ShapesOf(alts);
    forall vs: seq<Term> | |vs| == k
      ensures FirstMatch(ps, Node(OCon(con, mod), Args(vs)), 0).Choice? && FirstMatch(ps, Node(OCon(con, mod), Args(vs)), 0).index == i
    {
      var v := Node(OCon(con, mod), Args(vs));
      assert Bodies(Args(vs)) == vs;
      forall q | 0 <= q < k ensures Match(ps[i].args[q], vs[q]).Just? { assert ps[i].args[q] == ShapeOf(alts[i].pat.args[q]); }
      ContractEval.AllMatch(ps[i].args, vs);
      ContractEval.FirstMatchIs(ps, v, 0, i);
    }
  }

  lemma NotFlatNotFirst(alts: seq<Alt>, con: string, mod: string, k: nat, i: nat)
    requires i < |alts| && alts[i].pat.PCon? && alts[i].pat.con == con && !CtorFlat(alts, i, k)
    ensures !AlwaysFirst(ShapesOf(alts), con, mod, k, i)
  {
    var ps := ShapesOf(alts);
    if j :| 0 <= j < i && (alts[j].pat.PVar? || alts[j].pat.PWild?) {
      var vs := seq(k, _ => Node(OLit(IntLit(0)), []));
      FirstNotAfter(ps, Node(OCon(con, mod), Args(vs)), 0, j);
      assert |vs| == k;
    } else if |alts[i].pat.args| != k {
      var vs := seq(k, _ => Node(OLit(IntLit(0)), []));
      assert Match(ps[i], Node(OCon(con, mod), Args(vs))).Nothing?;
      assert |vs| == k;
    } else {
      var q :| 0 <= q < k && !alts[i].pat.args[q].PVar? && !alts[i].pat.args[q].PWild?;
      var vs := seq(k, _ => Refuter(ps[i].args[q]));
      var v := Node(OCon(con, mod), Args(vs));
      assert Bodies(Args(vs)) == vs && |vs| == k;
      assert ps[i].args[q] == ShapeOf(alts[i].pat.args[q]);
      assert vs[q] == Refuter(ps[i].args[q]);
      assert Match(ps[i].args[q], vs[q]).Nothing?;
      if Match(ps[i], v).Just? { AllMatchEach(ps[i].args, vs, q); }
      assert Match(ps[i], v).Nothing?;
    }
  }
}
