/**
  When each rewrite fires, and what a pass leaves when none does: no redex of
  any built-in rewrite at any node. The optimizer's result is such a fixed point
  or that of the fourth pass.
 */
module Fires {
  import opened CoreIR
  import opened Translate
  import opened Rewrites
  import opened Optimizer
  import opened OptimizerRight

  // ---- Redexes ----

  /** Type applications around `p`. */
  ghost predicate TypeApplied(steps: seq<Core>, e: Core, p: Core) {
    && |steps| > 0 && steps[0] == e && steps[|steps| - 1] == p
    && forall k :: 0 <= k < |steps| - 1 ==> Applies(steps[k], steps[k + 1])
  }

  predicate Applies(a: Core, b: Core) { a.TyApp? && b == a.expr }

  predicate HasCtorAlt(alts: seq<Alt>, con: string, mod: string) {
    exists i :: 0 <= i < |alts| && alts[i].pat.PCon? && alts[i].pat.con == con && alts[i].pat.mod == mod
  }

  predicate HasLitAlt(alts: seq<Alt>, v: Literal) {
    exists i :: 0 <= i < |alts| && (alts[i].pat == PLit(v) || alts[i].pat.PVar? || alts[i].pat.PWild?)
  }

  ghost predicate AbsorbsInto(f: Core) {
    exists steps, p: Core :: TypeApplied(steps, f, p) && p.PrimOp? && |p.args| < p.arity
  }

  /** Some built-in rewrite applies to the node. */
  ghost predicate Redex(c: Core) {
    || (c.App? && (c.fun.Lam? || c.fun.TyLam? || AbsorbsInto(c.fun)))
    || (c.TyApp? && c.expr.TyLam?)
    || (c.Case? && c.scrutinee.Con? && HasCtorAlt(c.alts, c.scrutinee.con, c.scrutinee.mod))
    || (c.Case? && c.scrutinee.Lit? && HasLitAlt(c.alts, c.scrutinee.value))
    || (c.Case? && c.scrutinee.Case? && SizeAlts(c.alts) <= 50)
    || (c.Bind? && (c.comp.Pure? || (c.comp.Case? && Size(c.body) <= 50)))
    || (c.Force? && c.expr.Thunk?)
    || (c.RecordProj? && c.record.RecordLit? && exists i :: 0 <= i < |c.record.fields| && c.record.fields[i].lbl == c.lbl)
    || (c.RecordUpdate? && c.record.RecordUpdate?)
  }

  /** Or it is a case on a known dictionary. */
  ghost predicate RedexWith(dicts: Dicts, c: Core) {
    Redex(c) || (c.Case? && c.scrutinee.Var? && VarKey(c.scrutinee.mod, c.scrutinee.name) in dicts)
  }

  /** No node of `e` is a redex. */
  ghost predicate Reduced(dicts: Dicts, e: Core) {
    !RedexWith(dicts, e) && forall i :: 0 <= i < |Scopes(e)| ==> Reduced(dicts, Scopes(e)[i].body)
  }

  // ---- When each rewrite fires ----

  lemma {:induction false} PeeledSteps(e: Core) returns (steps: seq<Core>)
    ensures TypeApplied(steps, e, PeelTyApps(e))
  {
    steps := [e];
    if e.TyApp? {
      var rest := PeeledSteps(e.expr);
      steps := [e] + rest;
      forall k | 0 <= k < |steps| - 1 ensures Applies(steps[k], steps[k + 1]) {
        if k > 0 { assert steps[k] == rest[k - 1] && steps[k + 1] == rest[k - 1 + 1]; }
      }
    }
  }

  lemma {:induction false} PeelsTo(steps: seq<Core>, e: Core, p: Core)
    requires TypeApplied(steps, e, p) && !p.TyApp?
    ensures PeelTyApps(e) == p
    decreases |steps|
  {
    if |steps| > 1 {
      assert Applies(steps[0], steps[0 + 1]);
      var rest := steps[1..];
      forall k | 0 <= k < |rest| - 1 ensures Applies(rest[k], rest[k + 1]) { assert Applies(steps[k + 1], steps[k + 1 + 1]); }
      PeelsTo(rest, steps[1], p);
    }
  }

  lemma AbsorbsIff(f: Core)
    ensures var p := PeelTyApps(f); AbsorbsInto(f) <==> p.PrimOp? && |p.args| < p.arity
  {
    var steps := PeeledSteps(f);
    if AbsorbsInto(f) {
      var ss, p: Core :| TypeApplied(ss, f, p) && p.PrimOp? && |p.args| < p.arity;
      PeelsTo(ss, f, p);
    }
  }

  lemma {:induction false} FieldIndexIff(fs: seq<Field>, l: string)
    ensures FieldIndex(fs, l) < |fs| <==> exists i :: 0 <= i < |fs| && fs[i].lbl == l
  {
    if fs != [] && fs[0].lbl != l {
      FieldIndexIff(fs[1..], l);
      if i :| 0 <= i < |fs| && fs[i].lbl == l { assert fs[1..][i - 1].lbl == l; }
      if i :| 0 <= i < |fs[1..]| && fs[1..][i].lbl == l { assert fs[i + 1].lbl == l; }
    }
  }

  /** The first alternative for the constructor of that module. */
  lemma {:induction false} CtorAltIs(alts: seq<Alt>, con: string, mod: string)
    ensures var i := CtorAlt(alts, con, mod);
      && (i < |alts| ==> alts[i].pat.PCon? && alts[i].pat.con == con && alts[i].pat.mod == mod)
      && forall j :: 0 <= j < i ==> !(alts[j].pat.PCon? && alts[j].pat.con == con && alts[j].pat.mod == mod)
    ensures CtorAlt(alts, con, mod) < |alts| <==> HasCtorAlt(alts, con, mod)
  {
    if alts != [] && !(alts[0].pat.PCon? && alts[0].pat.con == con && alts[0].pat.mod == mod) {
      CtorAltIs(alts[1..], con, mod);
      var k := CtorAlt(alts[1..], con, mod);
      forall j | 0 <= j < 1 + k ensures !(alts[j].pat.PCon? && alts[j].pat.con == con && alts[j].pat.mod == mod) {
        if j > 0 { assert alts[1..][j - 1] == alts[j]; }
      }
    }
  }

  predicate Decides(p: Pattern, v: Literal) { p == PLit(v) || p.PVar? }

  /** `i` is the first alternative that is that literal or a variable; if there is
      none, the last wildcard; if there is none, none. */
  predicate LitChoice(alts: seq<Alt>, v: Literal, i: nat) {
    if i < |alts| && Decides(alts[i].pat, v) then forall j :: 0 <= j < i ==> !Decides(alts[j].pat, v)
    else
      && (forall j :: 0 <= j < |alts| ==> !Decides(alts[j].pat, v))
      && (forall j :: 0 <= j < |alts| && alts[j].pat.PWild? ==> j <= i < |alts|)
      && (i < |alts| ==> alts[i].pat.PWild?)
  }

  lemma LitAltIff(alts: seq<Alt>, v: Literal)
    ensures var i := LitAlt(alts, v, 0, |alts|); LitChoice(alts, v, i) && (i < |alts| <==> HasLitAlt(alts, v))
  {
    LitAltFrom(alts, v, 0, |alts|);
  }

  /** No alternative before `from` decides, and `wildcard` is the last wildcard there. */
  predicate Undecided(alts: seq<Alt>, v: Literal, from: nat, wildcard: nat) {
    && from <= |alts| && wildcard <= |alts| && (wildcard < |alts| ==> wildcard < from && alts[wildcard].pat.PWild?)
    && forall j :: 0 <= j < from ==> !Decides(alts[j].pat, v) && (alts[j].pat.PWild? ==> j <= wildcard < |alts|)
  }

  lemma {:induction false} LitAltFrom(alts: seq<Alt>, v: Literal, from: nat, wildcard: nat)
    requires Undecided(alts, v, from, wildcard)
    ensures LitChoice(alts, v, LitAlt(alts, v, from, wildcard))
    decreases |alts| - from
  {
    if from < |alts| && !Decides(alts[from].pat, v) {
      LitAltFrom(alts, v, from + 1, if alts[from].pat.PWild? then from else wildcard);
    }
  }

  /** Exactly when each of the twelve rewrites fires. */
  lemma FiresIff(c: Core, n: nat)
    ensures BetaReduce(c, n).fired <==> c.App? && c.fun.Lam?
    ensures TyAppBeta(c, n).fired <==> c.TyApp? && c.expr.TyLam?
    ensures AppTyLamFloat(c, n).fired <==> c.App? && c.fun.TyLam?
    ensures CaseOfKnownCtor(c, n).fired <==> c.Case? && c.scrutinee.Con? && HasCtorAlt(c.alts, c.scrutinee.con, c.scrutinee.mod)
    ensures CaseOfKnownLit(c, n).fired <==> c.Case? && c.scrutinee.Lit? && HasLitAlt(c.alts, c.scrutinee.value)
    ensures BindPureElim(c, n).fired <==> c.Bind? && c.comp.Pure?
    ensures ForceThunkElim(c, n).fired <==> c.Force? && c.expr.Thunk?
    ensures RecordProjKnown(c, n).fired <==>
      c.RecordProj? && c.record.RecordLit? && exists i :: 0 <= i < |c.record.fields| && c.record.fields[i].lbl == c.lbl
    ensures RecordUpdateChain(c, n).fired <==> c.RecordUpdate? && c.record.RecordUpdate?
    ensures PrimOpAbsorb(c, n).fired <==> c.App? && AbsorbsInto(c.fun)
    ensures CaseOfCase(c, n).fired <==> c.Case? && c.scrutinee.Case? && SizeAlts(c.alts) <= 50
    ensures BindOfCase(c, n).fired <==> c.Bind? && c.comp.Case? && Size(c.body) <= 50
  {
    hide HasCtorAlt, HasLitAlt, AbsorbsInto, FieldIndex, CtorAlt, LitAlt, PeelTyApps, SizeAlts, Size;
    if c.App? { AbsorbsIff(c.fun); }
    if c.Case? && c.scrutinee.Con? { CtorAltIs(c.alts, c.scrutinee.con, c.scrutinee.mod); }
    if c.Case? && c.scrutinee.Lit? { LitAltIff(c.alts, c.scrutinee.value); }
    if c.RecordProj? && c.record.RecordLit? { FieldIndexIff(c.record.fields, c.lbl); }
  }

  /** And a rewrite that does not fire leaves the node and the counter alone. */
  lemma UnfiredKept(c: Core, n: nat)
    ensures !BetaReduce(c, n).fired ==> BetaReduce(c, n) == Kept(c, n)
    ensures !TyAppBeta(c, n).fired ==> TyAppBeta(c, n) == Kept(c, n)
    ensures !AppTyLamFloat(c, n).fired ==> AppTyLamFloat(c, n) == Kept(c, n)
    ensures !CaseOfKnownCtor(c, n).fired ==> CaseOfKnownCtor(c, n) == Kept(c, n)
    ensures !CaseOfKnownLit(c, n).fired ==> CaseOfKnownLit(c, n) == Kept(c, n)
    ensures !BindPureElim(c, n).fired ==> BindPureElim(c, n) == Kept(c, n)
    ensures !ForceThunkElim(c, n).fired ==> ForceThunkElim(c, n) == Kept(c, n)
    ensures !RecordProjKnown(c, n).fired ==> RecordProjKnown(c, n) == Kept(c, n)
    ensures !RecordUpdateChain(c, n).fired ==> RecordUpdateChain(c, n) == Kept(c, n)
    ensures !PrimOpAbsorb(c, n).fired ==> PrimOpAbsorb(c, n) == Kept(c, n)
    ensures !CaseOfCase(c, n).fired ==> CaseOfCase(c, n) == Kept(c, n)
    ensures !BindOfCase(c, n).fired ==> BindOfCase(c, n) == Kept(c, n)
  {
  }

  // ---- All rewrites at one node ----

  /** What the rewriter does at a node, one rewrite after another. */
  function InTurn(rules: seq<(Core, nat) -> Out>, o: Out): Out
    decreases |rules|
  {
    if rules == [] then o
    else var p := rules[0](o.e, o.n); InTurn(rules[1..], Out(p.e, p.n, o.fired || p.fired))
  }

  lemma InTurnFrom(rules: seq<(Core, nat) -> Out>, k: nat, o: Out)
    requires k < |rules|
    ensures InTurn(rules[k..], o) == InTurn(rules[k + 1..], Then(o, rules[k]))
  {
    assert rules[k..][0] == rules[k] && rules[k..][1..] == rules[k + 1..];
  }

  function BuiltIn(): seq<(Core, nat) -> Out> {
    [BetaReduce, TyAppBeta, AppTyLamFloat, CaseOfKnownCtor, CaseOfKnownLit, BindPureElim, ForceThunkElim, RecordProjKnown,
     RecordUpdateChain, PrimOpAbsorb, CaseOfCase, BindOfCase]
  }

  lemma LateInTurn(o: Out)
    ensures InTurn(BuiltIn()[5..], o)
      == Then(Then(Then(Then(Then(Then(Then(o, BindPureElim), ForceThunkElim), RecordProjKnown), RecordUpdateChain), PrimOpAbsorb), CaseOfCase), BindOfCase)
  {
    hide BetaReduce, TyAppBeta, AppTyLamFloat, CaseOfKnownCtor, CaseOfKnownLit, BindPureElim, ForceThunkElim,
      RecordProjKnown, RecordUpdateChain, PrimOpAbsorb, CaseOfCase, BindOfCase, InTurn, Then;
    var rs := BuiltIn();
    var o6 := Then(o, BindPureElim);
    var o7 := Then(o6, ForceThunkElim);
    var o8 := Then(o7, RecordProjKnown);
    var o9 := Then(o8, RecordUpdateChain);
    var o10 := Then(o9, PrimOpAbsorb);
    var o11 := Then(o10, CaseOfCase);
    InTurnFrom(rs, 5, o);
    InTurnFrom(rs, 6, o6);
    InTurnFrom(rs, 7, o7);
    InTurnFrom(rs, 8, o8);
    InTurnFrom(rs, 9, o9);
    InTurnFrom(rs, 10, o10);
    InTurnFrom(rs, 11, o11);
    InTurnNone(rs[12..], Then(o11, BindOfCase));
  }

  /** The built-in rewrites run in this order. */
  lemma AlgebraicInTurn(c: Core, n: nat)
    ensures Algebraic(c, n) == InTurn([BetaReduce, TyAppBeta, AppTyLamFloat, CaseOfKnownCtor, CaseOfKnownLit, BindPureElim,
      ForceThunkElim, RecordProjKnown, RecordUpdateChain, PrimOpAbsorb, CaseOfCase, BindOfCase], Out(c, n, false))
  {
    hide BetaReduce, TyAppBeta, AppTyLamFloat, CaseOfKnownCtor, CaseOfKnownLit, BindPureElim, ForceThunkElim,
      RecordProjKnown, RecordUpdateChain, PrimOpAbsorb, CaseOfCase, BindOfCase, InTurn, Then;
    var rs := BuiltIn();
    InTurnFrom(rs, 0, Kept(c, n));
    InTurnFrom(rs, 1, Then(Kept(c, n), BetaReduce));
    InTurnFrom(rs, 2, Then(Then(Kept(c, n), BetaReduce), TyAppBeta));
    InTurnFrom(rs, 3, Early(c, n));
    InTurnFrom(rs, 4, KnownCtor(c, n));
    LateInTurn(KnownLit(c, n));
    assert rs[0..] == rs;
  }

  lemma InTurnNone(rules: seq<(Core, nat) -> Out>, o: Out)
    requires rules == []
    ensures InTurn(rules, o) == o
  {
  }

  // ---- Nodes on which nothing fires ----

  ghost predicate KeepsUnfired(rule: (Core, nat) -> Out) {
    forall c, n: nat :: !rule(c, n).fired ==> rule(c, n) == Kept(c, n)
  }

  lemma BuiltInKeeps()
    ensures forall i :: 0 <= i < |BuiltIn()| ==> KeepsUnfired(BuiltIn()[i])
  {
    hide BetaReduce, TyAppBeta, AppTyLamFloat, CaseOfKnownCtor, CaseOfKnownLit, BindPureElim, ForceThunkElim,
      RecordProjKnown, RecordUpdateChain, PrimOpAbsorb, CaseOfCase, BindOfCase;
    forall c, n: nat { UnfiredKept(c, n); }
  }

  /** A sequence that does not fire changes nothing, and none of it fires. */
  lemma {:induction false} InTurnQuiet(rules: seq<(Core, nat) -> Out>, c: Core, n: nat)
    requires forall i :: 0 <= i < |rules| ==> KeepsUnfired(rules[i])
    ensures !InTurn(rules, Kept(c, n)).fired <==> forall i :: 0 <= i < |rules| ==> !rules[i](c, n).fired
    ensures !InTurn(rules, Kept(c, n)).fired ==> InTurn(rules, Kept(c, n)) == Kept(c, n)
    decreases |rules|
  {
    if rules != [] {
      var p := rules[0](c, n);
      assert KeepsUnfired(rules[0]);
      if p.fired {
        StaysFired(rules[1..], Out(p.e, p.n, true));
      } else {
        assert p == Kept(c, n);
        InTurnQuiet(rules[1..], c, n);
        forall i | 0 <= i < |rules| ensures rules[i](c, n).fired <==> (if i == 0 then false else rules[1..][i - 1](c, n).fired) {}
      }
    }
  }

  lemma {:induction false} StaysFired(rules: seq<(Core, nat) -> Out>, o: Out)
    requires o.fired
    ensures InTurn(rules, o).fired
    decreases |rules|
  {
    if rules != [] { StaysFired(rules[1..], Then(o, rules[0])); }
  }

  lemma BuiltInFires(c: Core, n: nat)
    ensures (exists i :: 0 <= i < |BuiltIn()| && BuiltIn()[i](c, n).fired) <==>
      || BetaReduce(c, n).fired || TyAppBeta(c, n).fired || AppTyLamFloat(c, n).fired || CaseOfKnownCtor(c, n).fired
      || CaseOfKnownLit(c, n).fired || BindPureElim(c, n).fired || ForceThunkElim(c, n).fired || RecordProjKnown(c, n).fired
      || RecordUpdateChain(c, n).fired || PrimOpAbsorb(c, n).fired || CaseOfCase(c, n).fired || BindOfCase(c, n).fired
  {
    hide BetaReduce, TyAppBeta, AppTyLamFloat, CaseOfKnownCtor, CaseOfKnownLit, BindPureElim, ForceThunkElim,
      RecordProjKnown, RecordUpdateChain, PrimOpAbsorb, CaseOfCase, BindOfCase;
    var rs := BuiltIn();
    assert rs[0](c, n).fired <==> BetaReduce(c, n).fired;
    assert rs[1](c, n).fired <==> TyAppBeta(c, n).fired;
    assert rs[2](c, n).fired <==> AppTyLamFloat(c, n).fired;
    assert rs[3](c, n).fired <==> CaseOfKnownCtor(c, n).fired;
    assert rs[4](c, n).fired <==> CaseOfKnownLit(c, n).fired;
    assert rs[5](c, n).fired <==> BindPureElim(c, n).fired;
    assert rs[6](c, n).fired <==> ForceThunkElim(c, n).fired;
    assert rs[7](c, n).fired <==> RecordProjKnown(c, n).fired;
    assert rs[8](c, n).fired <==> RecordUpdateChain(c, n).fired;
    assert rs[9](c, n).fired <==> PrimOpAbsorb(c, n).fired;
    assert rs[10](c, n).fired <==> CaseOfCase(c, n).fired;
    assert rs[11](c, n).fired <==> BindOfCase(c, n).fired;
  }

  /** The built-in rewrites leave a node alone exactly when it is no redex. */
  lemma AlgebraicIff(c: Core, n: nat)
    ensures Algebraic(c, n).fired <==> Redex(c)
    ensures !Redex(c) ==> Algebraic(c, n) == Kept(c, n)
  {
    hide BetaReduce, TyAppBeta, AppTyLamFloat, CaseOfKnownCtor, CaseOfKnownLit, BindPureElim, ForceThunkElim,
      RecordProjKnown, RecordUpdateChain, PrimOpAbsorb, CaseOfCase, BindOfCase, InTurn, Algebraic, HasCtorAlt, HasLitAlt,
      AbsorbsInto, Size, SizeAlts, BuiltIn, KeepsUnfired;
    AlgebraicRs(c, n);
    BuiltInKeeps();
    InTurnQuiet(BuiltIn(), c, n);
    BuiltInFires(c, n);
    FiresIff(c, n);
  }

  lemma AlgebraicRs(c: Core, n: nat)
    ensures Algebraic(c, n) == InTurn(BuiltIn(), Kept(c, n))
  {
    hide Algebraic, InTurn;
    AlgebraicInTurn(c, n);
  }

  lemma DictFires(dicts: Dicts, c: Core, n: nat)
    ensures CaseOfKnownDict(dicts, c, n).fired <==> c.Case? && c.scrutinee.Var? && VarKey(c.scrutinee.mod, c.scrutinee.name) in dicts
    ensures !CaseOfKnownDict(dicts, c, n).fired ==> CaseOfKnownDict(dicts, c, n) == Kept(c, n)
  {
    hide CaseOfKnownCtor, Normalized;
  }

  lemma {:induction false} RegisteredQuiet(rules: seq<Rule>, o: Out)
    ensures o.fired ==> Registered(rules, o).fired
    ensures !Registered(rules, o).fired ==> Registered(rules, o).e == o.e
    decreases |rules|
  {
    if rules != [] { RegisteredQuiet(rules[1..], Then(o, rules[0])); }
  }

  /** A node on which no rule fires is unchanged and no redex. */
  lemma QuietNode(cfg: Config, c: Core, n: nat)
    requires !ApplyRules(cfg, c, n).fired
    ensures ApplyRules(cfg, c, n).e == c && !RedexWith(cfg.dicts, c)
  {
    hide Algebraic, CaseOfKnownDict, Redex;
    RegisteredQuiet(cfg.rules, KnownDict(cfg, c, n));
    AlgebraicIff(c, n);
    DictFires(cfg.dicts, c, n);
  }

  /** With no further rules, a node that is no redex is kept. */
  lemma NoRedexKept(cfg: Config, c: Core, n: nat)
    requires cfg.rules == [] && !RedexWith(cfg.dicts, c)
    ensures ApplyRules(cfg, c, n) == Kept(c, n)
  {
    hide Algebraic, CaseOfKnownDict, Redex;
    AlgebraicIff(c, n);
    DictFires(cfg.dicts, c, n);
  }

  // ---- Passes in which nothing fires ----

  lemma OwnArgs(e: Core)
    requires e.Con? || e.PrimOp?
    ensures WithKids(e, SubTerms(e)) == e
  {
    assert SubTerms(e) == e.args;
  }

  lemma OwnAlts(e: Core)
    requires e.Case?
    ensures WithKids(e, SubTerms(e)) == e
  {
    hide Scopes;
    CaseScopes(e);
    var es := SubTerms(e);
    forall i | 0 <= i < |e.alts| ensures WithKids(e, es).alts[i] == e.alts[i] { assert es[i + 1] == Scopes(e)[i + 1].body; }
    assert WithKids(e, es).alts == e.alts;
  }

  lemma OwnFields(e: Core)
    requires e.RecordLit? || e.RecordUpdate?
    ensures WithKids(e, SubTerms(e)) == e
  {
    hide Scopes;
    var es := SubTerms(e);
    if e.RecordLit? {
      RecordScopes(e);
      assert WithKids(e, es).fields == e.fields;
    } else {
      UpdateScopes(e);
      forall i | 0 <= i < |e.updates| ensures WithKids(e, es).updates[i] == e.updates[i] { assert es[i + 1] == Scopes(e)[i + 1].body; }
      assert WithKids(e, es).updates == e.updates;
    }
  }

  lemma OwnKids(e: Core)
    ensures WithKids(e, SubTerms(e)) == e
  {
    if e.Con? || e.PrimOp? {
      OwnArgs(e);
    } else if e.Case? {
      OwnAlts(e);
    } else if e.RecordLit? || e.RecordUpdate? {
      OwnFields(e);
    }
  }

  /** A pass in which nothing fires changes nothing and finds no redex at any node. */
  lemma {:induction false} QuietPass(cfg: Config, e: Core, n: nat)
    requires !Pass(cfg, e, n).fired
    ensures Pass(cfg, e, n).e == e && Reduced(cfg.dicts, e)
    decreases e, 1
  {
    hide ApplyRules, WithKids, PassAll, RedexWith, Scopes;
    var es := if e.App? then [e.arg, e.fun] else SubTerms(e);
    QuietAll(cfg, e, es, n);
    var p := PassAll(cfg, e, es, n);
    if e.App? { AppSubTerms(e); }
    OwnKids(e);
    QuietNode(cfg, e, p.n);
    forall i | 0 <= i < |Scopes(e)| ensures Reduced(cfg.dicts, Scopes(e)[i].body) { assert SubTerms(e)[i] == Scopes(e)[i].body; }
  }

  lemma {:induction false} QuietAll(cfg: Config, e: Core, es: seq<Core>, n: nat)
    requires forall i :: 0 <= i < |es| ==> es[i] < e
    requires !PassAll(cfg, e, es, n).fired
    ensures PassAll(cfg, e, es, n).es == es && forall i :: 0 <= i < |es| ==> Reduced(cfg.dicts, es[i])
    decreases e, 0, |es|
  {
    hide Pass, Reduced;
    if es != [] {
      QuietPass(cfg, es[0], n);
      QuietAll(cfg, e, es[1..], Pass(cfg, es[0], n).n);
    }
  }

  /** The optimizer ends with no redex at any node, or with its fourth pass. */
  lemma OptimizeEnds(cfg: Config, e: Core, n: nat)
    ensures var r := Optimize(cfg, e, n).0;
      Reduced(cfg.dicts, r) || exists steps: seq<Out> :: IsRun(cfg, e, n, steps) && |steps| == 4 && steps[3].e == r
  {
    hide Pass, Passes, Reduced;
    OptimizeRuns(cfg, e, n);
    var r, m := Optimize(cfg, e, n).0, Optimize(cfg, e, n).1;
    var steps: seq<Out> :| IsRun(cfg, e, n, steps) && EndsIn(steps, 4, r, m);
    var k := |steps| - 1;
    if !steps[k].fired {
      if k == 0 {
        QuietPass(cfg, e, n);
      } else {
        assert PassAfter(cfg, steps[k - 1], steps[k - 1 + 1]);
        QuietPass(cfg, steps[k - 1].e, steps[k - 1].n);
      }
    }
  }
}
