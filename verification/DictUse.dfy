/**
  Known dictionaries are used: a case on a variable that stands for one is
  resolved in the first pass that comes to it.
 */
module DictUse {
  import opened CoreIR
  import opened Rewrites
  import opened DictRules
  import opened Optimizer
  import opened Fires

  /** A variable stays a variable. */
  lemma PassVar(cfg: Config, x: Name, m: string, n: nat)
    requires cfg.rules == []
    ensures Pass(cfg, Var(x, m), n) == Kept(Var(x, m), n)
  {
    hide ApplyRules;
    var e := Var(x, m);
    assert SubTerms(e) == [];
    NoneLeft(cfg, e, [], n);
    NoRedexKept(cfg, e, n);
  }

  /** The alternatives after a pass over their bodies. */
  ghost predicate PassedAlts(cfg: Config, alts: seq<Alt>, alts': seq<Alt>) {
    |alts'| == |alts| && forall i :: 0 <= i < |alts| ==> PassedAlt(cfg, alts[i], alts'[i])
  }

  ghost predicate PassedAlt(cfg: Config, alt: Alt, alt': Alt) {
    alt'.pat == alt.pat && IsPassed(cfg, alt.body, alt'.body)
  }

  ghost predicate IsPassed(cfg: Config, e: Core, r: Core) { exists m: nat :: r == Pass(cfg, e, m).e }

  lemma {:induction false} PassEach(cfg: Config, e: Core, es: seq<Core>, n: nat)
    requires forall i :: 0 <= i < |es| ==> es[i] < e
    ensures var p := PassAll(cfg, e, es, n); forall i :: 0 <= i < |es| ==> IsPassed(cfg, es[i], p.es[i])
    decreases |es|
  {
    hide Pass;
    if es != [] { PassEach(cfg, e, es[1..], Pass(cfg, es[0], n).n); }
  }

  /** One pass puts the settled definition in the place of the variable and
      resolves the case on it as far as the constructor shows. */
  lemma DictResolved(cfg: Config, c: Core, n: nat) returns (alts': seq<Alt>, m: nat)
    requires cfg.rules == [] && LooksUp(cfg.dicts, c)
    ensures PassedAlts(cfg, c.alts, alts')
    ensures var o, r := Pass(cfg, c, n), CaseOfKnownCtor(Case(Settled(Found(cfg.dicts, c)), alts'), m); o.fired && o.e == r.e
    ensures var s := Settled(Found(cfg.dicts, c));
      s.Con? && HasCtorAlt(c.alts, s.con, s.mod) ==> CaseOfKnownCtor(Case(s, alts'), m).fired
  {
    hide Pass, ApplyRules, WithKids, Settled, CaseOfKnownCtor;
    var es, d := SubTerms(c), Found(cfg.dicts, c);
    var p := PassAll(cfg, c, es, n);
    PassEach(cfg, c, es, n);
    CaseKids(c);
    FirstVar(cfg, c, es, n);
    alts' := AltsWith(c.alts, p.es[1..]);
    m := p.n;
    forall i | 0 <= i < |c.alts| ensures PassedAlt(cfg, c.alts[i], alts'[i]) { assert p.es[i + 1] == p.es[1..][i] && es[i + 1] == c.alts[i].body; }
    CaseWith(c, p.es);
    var w := Case(c.scrutinee, alts');
    VarCase(cfg, w, m);
    DictOutcome(cfg.dicts, w, m);
    PassCase(cfg, c, n);
    var s := Settled(d);
    if s.Con? && HasCtorAlt(c.alts, s.con, s.mod) {
      SamePats(c.alts, alts', s.con, s.mod);
      FiresIff(Case(s, alts'), m);
    }
  }

  function AltsWith(alts: seq<Alt>, bs: seq<Core>): seq<Alt>
    requires |bs| == |alts|
  {
    seq(|alts|, i requires 0 <= i < |alts| => Alt(alts[i].pat, bs[i]))
  }

  lemma CaseKids(c: Core)
    requires c.Case?
    ensures |SubTerms(c)| == 1 + |c.alts| && SubTerms(c)[0] == c.scrutinee
    ensures forall i :: 0 < i <= |c.alts| ==> SubTerms(c)[i] == c.alts[i - 1].body
  {
  }

  lemma CaseWith(c: Core, bs: seq<Core>)
    requires c.Case? && |bs| == 1 + |c.alts|
    ensures WithKids(c, bs) == Case(bs[0], AltsWith(c.alts, bs[1..]))
  {
  }

  lemma FirstVar(cfg: Config, c: Core, es: seq<Core>, n: nat)
    requires cfg.rules == [] && es != [] && es[0].Var? && forall i :: 0 <= i < |es| ==> es[i] < c
    ensures PassAll(cfg, c, es, n).es[0] == es[0]
  {
    hide Pass;
    PassVar(cfg, es[0].name, es[0].mod, n);
  }

  lemma PassCase(cfg: Config, c: Core, n: nat)
    requires c.Case?
    ensures var p := PassAll(cfg, c, SubTerms(c), n); var o := ApplyRules(cfg, WithKids(c, p.es), p.n);
      Pass(cfg, c, n).e == o.e && (o.fired ==> Pass(cfg, c, n).fired)
  {
    hide ApplyRules, PassAll, WithKids;
  }

  lemma VarCase(cfg: Config, w: Core, m: nat)
    requires cfg.rules == [] && LooksUp(cfg.dicts, w)
    ensures ApplyRules(cfg, w, m).e == CaseOfKnownDict(cfg.dicts, w, m).e && ApplyRules(cfg, w, m).fired
  {
    hide Algebraic, CaseOfKnownDict;
    AlgebraicIff(w, m);
    DictFires(cfg.dicts, w, m);
  }

  lemma SamePats(alts: seq<Alt>, alts': seq<Alt>, con: string, mod: string)
    requires |alts'| == |alts| && (forall i :: 0 <= i < |alts| ==> alts'[i].pat == alts[i].pat) && HasCtorAlt(alts, con, mod)
    ensures HasCtorAlt(alts', con, mod)
  {
    var i :| 0 <= i < |alts| && alts[i].pat.PCon? && alts[i].pat.con == con && alts[i].pat.mod == mod;
    assert alts'[i].pat.PCon?;
  }

  // ---- A program that uses its own dictionary ----

  function EqBool(): Binding { Binding("eqBool", App(Con("Eq$Dict", "", []), Var("prim", "M")), true) }

  function UsesEq(): Binding {
    Binding("main", Case(Var("eqBool", ""), [Alt(PCon("Eq$Dict", "", [PVar("m")]), Var("m", ""))]), false)
  }

  /** The dictionary is a bare constructor at the head of an application, and
      the case on it becomes the method. */
  lemma MethodResolved(n: nat)
    ensures var prog := [EqBool(), UsesEq()]; OptimizeAll(ConfigOf(map[], [], prog), prog, n).0[1].expr == Var("prim", "M")
  {
    hide Passes, LocalDicts;
    var prog := [EqBool(), UsesEq()];
    var cfg := ConfigOf(map[], [], prog);
    EqCollected();
    var all := OptimizeAll(cfg, prog, n);
    var k := Optimize(cfg, prog[0].expr, n).1;
    assert prog[1..] == [UsesEq()] && prog[1..][0] == UsesEq();
    assert all.0[1] == OptimizeAll(cfg, prog[1..], k).0[0];
    MainResolved(cfg, k);
  }

  lemma EqCollected()
    ensures var d := LocalDicts([EqBool(), UsesEq()]); VarKey("", "eqBool") in d && d[VarKey("", "eqBool")] == EqBool().expr
  {
    hide LocalDicts;
    var prog := [EqBool(), UsesEq()];
    var g := VarKey("", "eqBool");
    EqIsDict();
    assert LastDict(prog, g, 0);
    LocalDictsIff(prog, g);
  }

  lemma EqIsDict()
    ensures DictBinding(EqBool())
  {
    var b := EqBool();
    assert Unwraps([b.expr], b.expr, b.expr);
    var k := VarKey("", "eqBool");
    assert k.mod != "M" by { assert |k.mod| != |"M"|; }
    assert FreeVars(Con("Eq$Dict", "", [])) == {};
    assert Scopes(b.expr) == [Plain(Con("Eq$Dict", "", [])), Plain(Var("prim", "M"))];
    assert FreeVars(Var("prim", "M")) == {VarKey("M", "prim")};
  }

  lemma MainResolved(cfg: Config, n: nat)
    requires cfg.rules == [] && VarKey("", "eqBool") in cfg.dicts && cfg.dicts[VarKey("", "eqBool")] == EqBool().expr
    ensures Optimize(cfg, UsesEq().expr, n).0 == Var("prim", "M")
  {
    hide Pass, CaseOfKnownCtor;
    var c := UsesEq().expr;
    var alts', m := DictResolved(cfg, c, n);
    assert PassedAlt(cfg, c.alts[0], alts'[0]);
    var k: nat :| alts'[0].body == Pass(cfg, Var("m", ""), k).e;
    PassVar(cfg, "m", "", k);
    assert alts' == c.alts;
    MethodOfEq(m);
    var o := Pass(cfg, c, n);
    assert o.e == Var("prim", "M") && o.fired;
    PassVar(cfg, "prim", "M", o.n);
    PassesTwo(cfg, c, n);
  }

  lemma PassesTwo(cfg: Config, c: Core, n: nat)
    requires var o := Pass(cfg, c, n); o.fired && !Pass(cfg, o.e, o.n).fired
    ensures var o := Pass(cfg, c, n); Optimize(cfg, c, n).0 == Pass(cfg, o.e, o.n).e
  {
    hide Pass;
    var o := Pass(cfg, c, n);
    assert Passes(cfg, c, n, 4) == Passes(cfg, o.e, o.n, 3);
  }

  lemma MethodOfEq(m: nat)
    ensures CaseOfKnownCtor(Case(Settled(EqBool().expr), UsesEq().expr.alts), m).e == Var("prim", "M")
  {
    var d := EqBool().expr;
    assert SpineArgs(d) == [Var("prim", "M")] && Head(d) == Con("Eq$Dict", "", []);
    var ps: seq<Pattern>, vs: seq<Core> := [PVar("m")], [Var("prim", "M")];
    var acc := Collected(map[], {});
    assert ps[1..] == [] && vs[1..] == [];
    var col := CollectPatSubs(ps[0], vs[0], acc);
    assert CollectArgSubs(ps, vs, acc) == col && col.subs == map["m" := Var("prim", "M")];
    assert |col.subs| == 1;
  }
}
