/**
  What substitution and its relatives do to the letter: nothing where nothing is
  replaced and nothing clashes, and a fresh name exactly where a binder clashes.
 */
module SyntaxLaws {
  import opened CoreIR
  import opened Translate
  import opened FreshNames
  import opened Subst
  import opened Hygiene
  import opened Rewrites

  // ---- Node count ----

  function Sum(es: seq<Core>): nat { if es == [] then 0 else Size(es[0]) + Sum(es[1..]) }

  lemma SumFew(es: seq<Core>)
    ensures |es| == 0 ==> Sum(es) == 0
    ensures |es| == 1 ==> Sum(es) == Size(es[0])
    ensures |es| == 2 ==> Sum(es) == Size(es[0]) + Size(es[1])
  {
    if |es| == 2 {
      assert es[1..][0] == es[1] && es[1..][1..] == [];
      assert Sum(es[1..]) == Size(es[1]) + Sum(es[1..][1..]);
    }
  }

  lemma {:induction false} SumArgs(es: seq<Core>)
    ensures SizeArgs(es) == Sum(es)
  {
    if es != [] { SumArgs(es[1..]); }
  }

  lemma {:induction false} SumFields(fs: seq<Field>)
    ensures SizeFields(fs) == Sum(Values(fs))
  {
    if fs != [] {
      SumFields(fs[1..]);
      assert Values(fs)[1..] == Values(fs[1..]);
    }
  }

  function BodiesOf(alts: seq<Alt>): seq<Core> { seq(|alts|, i requires 0 <= i < |alts| => alts[i].body) }

  lemma {:induction false} SumAlts(alts: seq<Alt>)
    ensures SizeAlts(alts) == Sum(BodiesOf(alts))
  {
    if alts != [] {
      SumAlts(alts[1..]);
      assert BodiesOf(alts)[1..] == BodiesOf(alts[1..]);
    }
  }

  /** The size of a node is one more than that of its children together. */
  lemma SizeNode(e: Core)
    ensures Size(e) == 1 + Sum(Kids(e))
  {
    hide Scopes, SizeArgs, SizeAlts, SizeFields;
    if e.Case? {
      CaseScopes(e);
      SumAlts(e.alts);
      var bs := BodiesOf(e.alts);
      forall i | 0 <= i < |e.alts| ensures Kids(e)[i + 1] == bs[i] { assert Scopes(e)[i + 1].body == e.alts[i].body; }
      assert Kids(e) == [e.scrutinee] + bs && Kids(e)[1..] == bs;
    } else if e.Lam? || e.Fix? || e.Bind? || e.Var? {
      SizeBinder(e);
    } else {
      SizePlain(e);
    }
  }

  lemma SizeBinder(e: Core)
    requires e.Lam? || e.Fix? || e.Bind? || e.Var?
    ensures Size(e) == 1 + Sum(Kids(e))
  {
    SumFew(Kids(e));
  }

  lemma SizePlain(e: Core)
    requires !e.Var? && !Binds(e)
    ensures Size(e) == 1 + Sum(Kids(e))
  {
    hide Scopes, Kids;
    PlainKids(e);
    var ks := Kids(e);
    if e.Con? || e.PrimOp? { SumArgs(e.args); }
    if e.RecordLit? { SumFields(e.fields); }
    if e.RecordUpdate? {
      SumFields(e.updates);
      assert ks[1..] == Values(e.updates);
    }
    SumFew(ks);
  }

  // ---- Substitution that has nothing to do ----

  /** No binder of `e` is among the names. */
  predicate BindsNone(e: Core, fv: set<Name>) {
    forall i :: 0 <= i < |Scopes(e)| ==>
      (forall x :: x in Scopes(e)[i].names ==> x !in fv) && BindsNone(Scopes(e)[i].body, fv)
  }

  /** No replaced name is free in `e`, and no binder of `e` clashes. */
  ghost predicate Idle(e: Core, subs: Subs, fv: set<Name>) {
    (forall y :: y in subs ==> !IsLocal(e, y)) && BindsNone(e, fv)
  }

  lemma IdleUnder(e: Core, subs: Subs, active: Subs, fv: set<Name>, i: nat)
    requires Idle(e, subs, fv) && !e.Var? && i < |Scopes(e)|
    requires forall y :: y in active ==> y in subs && y !in Scopes(e)[i].names
    ensures Idle(Scopes(e)[i].body, active, fv) && forall x :: x in Scopes(e)[i].names ==> x !in fv
  {
  }

  /** Then substitution returns the expression itself and draws no name. */
  lemma {:induction false} SubstIdle(e: Core, subs: Subs, fv: set<Name>, n: nat)
    requires Idle(e, subs, fv)
    ensures SubstMany(e, subs, fv, n) == (e, n)
    decreases Size(e), 2
  {
    hide Idle, SubstPlain, SubstData, SubstAlts, Scopes;
    if e.Var? {
      VarIdle(e, subs, fv);
    } else if e.Lam? || e.Fix? {
      FunScope(e);
      BinderIdle(if e.Lam? then e.param else e.name, e.body, e, subs, fv, n);
    } else if e.Case? {
      CaseScopes(e);
      IdleUnder(e, subs, subs, fv, 0);
      AltsIdle(e, e.alts, 0, subs, fv, n);
      assert e.alts[0..] == e.alts;
      SubstIdle(e.scrutinee, subs, fv, n);
    } else if e.Bind? {
      BindScopes(e);
      IdleUnder(e, subs, subs, fv, 0);
      SubstIdle(e.comp, subs, fv, n);
      BoundIdle(e, subs, fv, n);
    } else if IsData(e) {
      DataIdle(e, subs, fv, n);
    } else {
      PlainIdle(e, subs, fv, n);
    }
  }

  lemma VarIdle(e: Core, subs: Subs, fv: set<Name>)
    requires e.Var? && Idle(e, subs, fv)
    ensures e.mod != "" || e.name !in subs
  {
  }

  lemma FunScope(e: Core)
    requires e.Lam? || e.Fix?
    ensures Scopes(e) == [Under([if e.Lam? then e.param else e.name], {if e.Lam? then e.param else e.name}, e.body)]
  {
  }

  lemma BindScopes(e: Core)
    requires e.Bind?
    ensures Scopes(e) == [Plain(e.comp), Under([e.bvar], {e.bvar}, e.body)]
  {
  }

  lemma {:induction false} BinderIdle(x: Name, b: Core, e: Core, subs: Subs, fv: set<Name>, n: nat)
    requires !e.Var? && Idle(e, subs, fv) && |Scopes(e)| == 1 && Scopes(e)[0].names == [x] && Scopes(e)[0].body == b
    ensures SubstBinder(x, b, subs, fv, n) == (x, b, n)
    decreases Size(b), 3
  {
    hide Idle, SubstMany, Scopes;
    var active := if x in subs then WithoutKey(subs, x) else subs;
    if x in subs { WithoutKeyRemoves(subs, x); }
    IdleUnder(e, subs, active, fv, 0);
    assert x in Scopes(e)[0].names;
    SubstIdle(b, active, fv, n);
  }

  lemma {:induction false} BoundIdle(e: Core, subs: Subs, fv: set<Name>, n: nat)
    requires e.Bind? && Idle(e, subs, fv)
    ensures SubstBound(e.bvar, e.body, subs, fv, n) == (e.bvar, e.body, n)
    decreases Size(e.body), 3
  {
    hide Idle, SubstMany, Scopes;
    BindScopes(e);
    var x := e.bvar;
    var active := if x in subs then WithoutKey(subs, x) else subs;
    if x in subs { WithoutKeyRemoves(subs, x); }
    IdleUnder(e, subs, active, fv, 1);
    assert x in Scopes(e)[1].names;
    SubstIdle(e.body, active, fv, n);
  }

  lemma {:induction false} NoClash(acc: PatternRenaming, bs: seq<Name>, fv: set<Name>)
    requires Renaming(acc.rename) && forall x :: x in bs ==> x !in fv
    ensures RenameClashes(acc, bs, fv) == acc
    decreases |bs|
  {
    if bs != [] { NoClash(acc, bs[1..], fv); }
  }

  lemma {:induction false} AltsIdle(e: Core, alts: seq<Alt>, from: nat, subs: Subs, fv: set<Name>, n: nat)
    requires e.Case? && Idle(e, subs, fv) && from <= |e.alts| && alts == e.alts[from..]
    ensures SubstAlts(alts, subs, fv, n) == (alts, n)
    decreases SizeAlts(alts), |alts| + 4
  {
    hide Idle, SubstMany, Scopes, Bindings, RenameClashes, Active;
    if alts != [] {
      assert alts == [alts[0]] + alts[1..];
      AltIdle(e, from, subs, fv, n);
      AltsIdle(e, alts[1..], from + 1, subs, fv, n);
    }
  }

  lemma {:induction false} AltIdle(e: Core, i: nat, subs: Subs, fv: set<Name>, n: nat)
    requires e.Case? && Idle(e, subs, fv) && i < |e.alts|
    ensures SubstAlt(e.alts[i], subs, fv, n) == (e.alts[i], n)
    decreases Size(e.alts[i].body), 3
  {
    hide Idle, SubstMany, Scopes, Bindings, Active;
    CaseScopes(e);
    var alt := e.alts[i];
    var bs := Bindings(alt.pat);
    assert Scopes(e)[i + 1].names == bs && Scopes(e)[i + 1].body == alt.body;
    ActiveKeeps(subs, bs);
    IdleUnder(e, subs, Active(subs, bs), fv, i + 1);
    NoClash(PatternRenaming(alt.pat, map[], {}, n), bs, fv);
    SubstIdle(alt.body, Active(subs, bs), fv, n);
  }

  lemma KidIdle(e: Core, subs: Subs, fv: set<Name>, i: nat)
    requires !e.Var? && !Binds(e) && Idle(e, subs, fv) && i < |Kids(e)|
    ensures Idle(Kids(e)[i], subs, fv)
  {
    hide Idle, Scopes;
    PlainNames(e);
    assert Kids(e)[i] == Scopes(e)[i].body;
    IdleUnder(e, subs, subs, fv, i);
  }

  ghost predicate AllIdle(es: seq<Core>, subs: Subs, fv: set<Name>) { forall i :: 0 <= i < |es| ==> Idle(es[i], subs, fv) }

  lemma {:induction false} PlainIdle(e: Core, subs: Subs, fv: set<Name>, n: nat)
    requires !e.Var? && !Binds(e) && !IsData(e) && Idle(e, subs, fv)
    ensures SubstPlain(e, subs, fv, n) == (e, n)
    decreases Size(e), 1
  {
    hide Idle, SubstMany, Kids, Scopes;
    PlainKids(e);
    var ks := Kids(e);
    forall i | 0 <= i < |ks| ensures Idle(ks[i], subs, fv) { KidIdle(e, subs, fv, i); }
    if e.Con? || e.PrimOp? {
      ArgsIdle(ks, subs, fv, n);
    } else if e.App? {
      SubstIdle(ks[0], subs, fv, n);
      SubstIdle(ks[1], subs, fv, n);
    } else if e.Merge? {
      SubstIdle(ks[0], subs, fv, n);
      SubstIdle(ks[1], subs, fv, n);
    } else if !e.Lit? && !e.Error? {
      SubstIdle(ks[0], subs, fv, n);
    }
  }

  lemma {:induction false} DataIdle(e: Core, subs: Subs, fv: set<Name>, n: nat)
    requires IsData(e) && Idle(e, subs, fv)
    ensures SubstData(e, subs, fv, n) == (e, n)
    decreases Size(e), 0
  {
    hide Idle, SubstMany, Kids, Scopes;
    PlainKids(e);
    var ks := Kids(e);
    forall i | 0 <= i < |ks| ensures Idle(ks[i], subs, fv) { KidIdle(e, subs, fv, i); }
    if e.RecordLit? {
      assert forall i :: 0 <= i < |e.fields| ==> ks[i] == e.fields[i].value;
      FieldsIdle(e.fields, subs, fv, n);
    } else if e.RecordUpdate? {
      forall i | 0 <= i < |e.updates| ensures Idle(e.updates[i].value, subs, fv) { assert ks[i + 1] == e.updates[i].value; }
      FieldsIdle(e.updates, subs, fv, n);
      SubstIdle(ks[0], subs, fv, n);
    } else {
      SubstIdle(ks[0], subs, fv, n);
    }
  }

  lemma {:induction false} ArgsIdle(es: seq<Core>, subs: Subs, fv: set<Name>, n: nat)
    requires AllIdle(es, subs, fv)
    ensures SubstArgs(es, subs, fv, n) == (es, n)
    decreases SizeArgs(es), |es| + 3
  {
    hide Idle, SubstMany;
    if es != [] {
      assert es == [es[0]] + es[1..];
      SubstIdle(es[0], subs, fv, n);
      ArgsIdle(es[1..], subs, fv, n);
    }
  }

  lemma {:induction false} FieldsIdle(fs: seq<Field>, subs: Subs, fv: set<Name>, n: nat)
    requires forall i :: 0 <= i < |fs| ==> Idle(fs[i].value, subs, fv)
    ensures SubstFields(fs, subs, fv, n) == (fs, n)
    decreases SizeFields(fs), |fs| + 3
  {
    hide Idle, SubstMany;
    if fs != [] {
      assert fs == [Field(fs[0].lbl, fs[0].value)] + fs[1..];
      SubstIdle(fs[0].value, subs, fv, n);
      FieldsIdle(fs[1..], subs, fv, n);
    }
  }

  // ---- When a binder is renamed ----

  lemma BinderName(x: Name, b: Core, subs: Subs, fv: set<Name>, n: nat)
    ensures SubstBinder(x, b, subs, fv, n).0 == if x in fv && x !in subs then FreshName(x, n + 1) else x
    ensures SubstBound(x, b, subs, fv, n).0 == if x in fv then FreshName(x, n + 1) else x
  {
    hide SubstMany;
  }

  /** A function binder is renamed exactly when it is free in the replacements and
      not replaced itself. */
  lemma FunRenamed(x: Name, t: Ty, b: Core, subs: Subs, fv: set<Name>, n: nat)
    ensures var r := SubstMany(Lam(x, t, b), subs, fv, n).0;
      r.Lam? && r.paramType == t && r.param == if x in fv && x !in subs then FreshName(x, n + 1) else x
    ensures var r := SubstMany(Fix(x, b), subs, fv, n).0; r.Fix? && r.name == if x in fv && x !in subs then FreshName(x, n + 1) else x
  {
    hide SubstBinder;
    BinderName(x, b, subs, fv, n);
  }

  /** The variable of a bind is renamed whenever it is free in the replacements. */
  lemma BindRenamed(c: Core, x: Name, d: bool, b: Core, subs: Subs, fv: set<Name>, n: nat)
    ensures var r, m := SubstMany(Bind(c, x, d, b), subs, fv, n).0, SubstMany(c, subs, fv, n).1;
      r.Bind? && r.isDiscard == d && r.bvar == if x in fv then FreshName(x, m + 1) else x
  {
    hide SubstBound;
    BinderName(x, b, subs, fv, SubstMany(c, subs, fv, n).1);
  }

  /** The clashing binders, in order. */
  function Clashing(bs: seq<Name>, fv: set<Name>): seq<Name> {
    if bs == [] then [] else (if bs[0] in fv then [bs[0]] else []) + Clashing(bs[1..], fv)
  }

  /** Before a frame is moved, each clashing binder and no other gets the next name. */
  lemma {:induction false} DrawsExact(bs: seq<Name>, fv: set<Name>, n: nat)
    ensures var r, cs := Draws(bs, fv, n), Clashing(bs, fv);
      && |r.0| == |cs| && r.1 == n + |cs|
      && forall i :: 0 <= i < |cs| ==> r.0[i] == Draw(cs[i], FreshName(cs[i], n + 1 + i))
  {
    hide FreshName;
    if bs != [] {
      if bs[0] in fv {
        DrawsExact(bs[1..], fv, n + 1);
        var r, rest, cs := Draws(bs, fv, n), Draws(bs[1..], fv, n + 1), Clashing(bs[1..], fv);
        forall i | 0 < i < |r.0| ensures r.0[i] == Draw(cs[i - 1], FreshName(cs[i - 1], n + 1 + i)) { assert r.0[i] == rest.0[i - 1]; }
      } else {
        DrawsExact(bs[1..], fv, n);
      }
    }
  }

  lemma {:induction false} NoneClashing(bs: seq<Name>, fv: set<Name>)
    requires forall x :: x in bs ==> x !in fv
    ensures Clashing(bs, fv) == []
  {
    if bs != [] { NoneClashing(bs[1..], fv); }
  }

  /** An alternative none of whose binders clash is moved under as it is. */
  lemma AvoidsNothing(p: Pattern, b: Core, fv: set<Name>, n: nat)
    requires forall x :: x in Bindings(p) ==> x !in fv
    ensures AvoidCapture(p, b, fv, n) == (p, b, n)
  {
    hide Bindings;
    NoneClashing(Bindings(p), fv);
    DrawsExact(Bindings(p), fv, n);
  }

  /** The frame put around each body. */
  function Plugged(alts: seq<Alt>, fr: Frame): seq<Alt> {
    seq(|alts|, i requires 0 <= i < |alts| => Alt(alts[i].pat, Plug(fr, alts[i].body)))
  }

  /** Where no binder clashes with what moves, nothing else happens. */
  lemma {:induction false} PushesPlainly(alts: seq<Alt>, fr: Frame, n: nat)
    requires forall i, x :: 0 <= i < |alts| && x in Bindings(alts[i].pat) ==> x !in FrameNames(fr)
    ensures PushInto(alts, fr, n) == (Plugged(alts, fr), n)
  {
    hide Bindings, AvoidCapture, FrameNames, Plug;
    if alts != [] {
      AvoidsNothing(alts[0].pat, alts[0].body, FrameNames(fr), n);
      PushesPlainly(alts[1..], fr, n);
      assert Plugged(alts, fr) == [Alt(alts[0].pat, Plug(fr, alts[0].body))] + Plugged(alts[1..], fr);
    }
  }

  // ---- Collecting along more or fewer arguments ----

  /** Variables are paired with arguments as far as both go, and with nothing else. */
  ghost predicate Zipped(ps: seq<Pattern>, vals: seq<Core>, acc: Subs, r: Subs, y: Name)
    requires forall i :: 0 <= i < |ps| ==> ps[i].PVar?
  {
    || (exists i :: 0 <= i < |ps| && i < |vals| && ps[i].name == y && y in r && r[y] == vals[i])
    || ((forall i :: 0 <= i < |ps| && i < |vals| ==> ps[i].name != y) && (y in r <==> y in acc) && (y in r ==> r[y] == acc[y]))
  }

  lemma {:induction false} CollectZip(ps: seq<Pattern>, vals: seq<Core>, acc: Collected, y: Name)
    requires forall i :: 0 <= i < |ps| ==> ps[i].PVar?
    requires forall i, j :: 0 <= i < j < |ps| ==> ps[i].name != ps[j].name
    ensures Zipped(ps, vals, acc.subs, CollectArgSubs(ps, vals, acc).subs, y)
    decreases |ps|
  {
    hide FreeNames;
    if ps != [] && vals != [] {
      var acc', ps1, vs1 := CollectPatSubs(ps[0], vals[0], acc), ps[1..], vals[1..];
      var r := CollectArgSubs(ps, vals, acc).subs;
      CollectZip(ps1, vs1, acc', y);
      if i :| 0 <= i < |ps1| && i < |vs1| && ps1[i].name == y && y in r && r[y] == vs1[i] {
        assert ps[i + 1].name == y && r[y] == vals[i + 1];
      } else {
        forall i | 0 < i < |ps| && i < |vals| ensures ps[i].name != y { assert ps1[i - 1].name != y; }
        if ps[0].name == y { assert r[y] == vals[0]; }
      }
    }
  }
}
