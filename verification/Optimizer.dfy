/**
  The optimizer: all rewrites at every node, bottom-up, in up to four passes.
 */
module Optimizer {
  import opened CoreIR
  import opened Rewrites

  /** A registered rewrite of one node: it never takes the counter back, and a
      node on which it does not fire stays as it is. */
  type Rule = rule: (Core, nat) -> Out |
    forall c, n: nat :: n <= rule(c, n).n && (!rule(c, n).fired ==> rule(c, n).e == c) witness Kept

  function Then(o: Out, rule: (Core, nat) -> Out): Out {
    var p := rule(o.e, o.n); Out(p.e, p.n, o.fired || p.fired)
  }

  /** The rewrites that come before case-of-known-constructor. */
  function Early(c: Core, n: nat): Out {
    Then(Then(Then(Kept(c, n), BetaReduce), TyAppBeta), AppTyLamFloat)
  }

  function KnownCtor(c: Core, n: nat): Out { Then(Early(c, n), CaseOfKnownCtor) }

  function KnownLit(c: Core, n: nat): Out { Then(KnownCtor(c, n), CaseOfKnownLit) }

  /** The built-in rewrites in their order. */
  function Algebraic(c: Core, n: nat): Out {
    Then(Then(Then(Then(Then(Then(Then(KnownLit(c, n),
      BindPureElim), ForceThunkElim), RecordProjKnown), RecordUpdateChain), PrimOpAbsorb), CaseOfCase), BindOfCase)
  }

  /** Registered rules, in order. */
  function Registered(rules: seq<Rule>, o: Out): Out
    decreases |rules|
  {
    if rules == [] then o else Registered(rules[1..], Then(o, rules[0]))
  }

  /** What a program registers: its dictionaries and further rules. */
  datatype Config = Config(dicts: Dicts, rules: seq<Rule>)

  function KnownDict(cfg: Config, c: Core, n: nat): Out {
    var o := Algebraic(c, n);
    var p := CaseOfKnownDict(cfg.dicts, o.e, o.n);
    Out(p.e, p.n, o.fired || p.fired)
  }

  function ApplyRules(cfg: Config, c: Core, n: nat): Out { Registered(cfg.rules, KnownDict(cfg, c, n)) }

  // ---- Bottom-up passes ----

  /** The immediate subterms, in the order of `Scopes`. */
  function SubTerms(e: Core): (es: seq<Core>)
    ensures |es| == |Scopes(e)| && forall i :: 0 <= i < |es| ==> es[i] == Scopes(e)[i].body
    ensures forall i :: 0 <= i < |es| ==> es[i] < e
  {
    var ss := Scopes(e); seq(|ss|, i requires 0 <= i < |ss| => ss[i].body)
  }

  /** The node with its subterms replaced. */
  function WithKids(e: Core, bs: seq<Core>): Core
    requires |bs| == |Scopes(e)|
  {
    match e
    case Var(_, _) => e
    case Lam(x, t, _) => Lam(x, t, bs[0])
    case App(_, _) => App(bs[0], bs[1])
    case TyApp(_, t) => TyApp(bs[0], t)
    case TyLam(a, k, _) => TyLam(a, k, bs[0])
    case Con(c, m, _) => Con(c, m, bs)
    case Case(_, alts) => Case(bs[0], seq(|alts|, i requires 0 <= i < |alts| => Alt(alts[i].pat, bs[i + 1])))
    case Fix(f, _) => Fix(f, bs[0])
    case Pure(_) => Pure(bs[0])
    case Bind(_, x, d, _) => Bind(bs[0], x, d, bs[1])
    case Thunk(_) => Thunk(bs[0])
    case Force(_) => Force(bs[0])
    case Merge(_, _, ll, rl) => Merge(bs[0], bs[1], ll, rl)
    case PrimOp(p, k, eff, _) => PrimOp(p, k, eff, bs)
    case Lit(_) => e
    case Error => e
    case RecordLit(fs) => RecordLit(seq(|fs|, i requires 0 <= i < |fs| => Field(fs[i].lbl, bs[i])))
    case RecordProj(_, l) => RecordProj(bs[0], l)
    case RecordUpdate(_, fs) =>
      RecordUpdate(bs[0], seq(|fs|, i requires 0 <= i < |fs| => Field(fs[i].lbl, bs[i + 1])))
    case VariantLit(t, _) => VariantLit(t, bs[0])
  }

  datatype Outs = Outs(es: seq<Core>, n: nat, fired: bool)

  /** One bottom-up pass. An application handles its argument before its function. */
  function Pass(cfg: Config, e: Core, n: nat): Out
    decreases e, 1
  {
    var p := if e.App? then Flipped(PassAll(cfg, e, [e.arg, e.fun], n)) else PassAll(cfg, e, SubTerms(e), n);
    var o := ApplyRules(cfg, WithKids(e, p.es), p.n);
    Out(o.e, o.n, p.fired || o.fired)
  }

  function Flipped(p: Outs): Outs
    requires |p.es| == 2
  {
    Outs([p.es[1], p.es[0]], p.n, p.fired)
  }

  function PassAll(cfg: Config, e: Core, es: seq<Core>, n: nat): (p: Outs)
    requires forall i :: 0 <= i < |es| ==> es[i] < e
    ensures |p.es| == |es|
    decreases e, 0, |es|
  {
    if es == [] then Outs([], n, false)
    else
      var o := Pass(cfg, es[0], n);
      var p := PassAll(cfg, e, es[1..], o.n);
      Outs([o.e] + p.es, p.n, o.fired || p.fired)
  }

  lemma PassAllFrom(cfg: Config, e: Core, es: seq<Core>, n: nat, i: nat)
    requires i < |es| && forall i :: 0 <= i < |es| ==> es[i] < e
    ensures var o := Pass(cfg, es[i], n); var q := PassAll(cfg, e, es[i + 1..], o.n);
      PassAll(cfg, e, es[i..], n) == Outs([o.e] + q.es, q.n, o.fired || q.fired)
  {
    hide Pass;
    assert es[i..][0] == es[i] && es[i..][1..] == es[i + 1..];
  }

  lemma NoneLeft(cfg: Config, e: Core, es: seq<Core>, n: nat)
    requires es == []
    ensures PassAll(cfg, e, es, n) == Outs([], n, false)
  {
  }

  const MaxPasses: nat := 4

  /** Up to `k` passes, stopping after one in which nothing fired. */
  function Passes(cfg: Config, e: Core, n: nat, k: nat): (Core, nat)
    decreases k
  {
    if k == 0 then (e, n)
    else
      var o := Pass(cfg, e, n);
      if o.fired then Passes(cfg, o.e, o.n, k - 1) else (o.e, o.n)
  }

  function Optimize(cfg: Config, e: Core, n: nat): (Core, nat) { Passes(cfg, e, n, MaxPasses) }

  /** One pass after another, each but the last having changed something. */
  ghost predicate IsRun(cfg: Config, e: Core, n: nat, steps: seq<Out>) {
    && |steps| > 0 && steps[0] == Pass(cfg, e, n)
    && forall i :: 0 <= i < |steps| - 1 ==> PassAfter(cfg, steps[i], steps[i + 1])
  }

  ghost predicate PassAfter(cfg: Config, a: Out, b: Out) { a.fired && b == Pass(cfg, a.e, a.n) }

  /** At most four passes lead to `r`, fewer only if the last changed nothing. */
  ghost predicate RunsTo(cfg: Config, e: Core, n: nat, r: Core, m: nat) {
    exists steps :: IsRun(cfg, e, n, steps) && EndsIn(steps, 4, r, m)
  }

  ghost predicate EndsIn(steps: seq<Out>, k: nat, r: Core, m: nat) {
    0 < |steps| <= k && steps[|steps| - 1].e == r && steps[|steps| - 1].n == m && (steps[|steps| - 1].fired ==> |steps| == k)
  }

  lemma {:induction false} PassesRun(cfg: Config, e: Core, n: nat, k: nat) returns (steps: seq<Out>)
    requires k > 0
    ensures IsRun(cfg, e, n, steps) && EndsIn(steps, k, Passes(cfg, e, n, k).0, Passes(cfg, e, n, k).1)
    decreases k
  {
    hide Pass;
    var o := Pass(cfg, e, n);
    steps := [o];
    if o.fired && k > 1 {
      var rest := PassesRun(cfg, o.e, o.n, k - 1);
      steps := [o] + rest;
      forall i | 0 <= i < |steps| - 1 ensures PassAfter(cfg, steps[i], steps[i + 1]) {
        if i > 0 { assert steps[i] == rest[i - 1] && steps[i + 1] == rest[i - 1 + 1]; }
      }
    }
  }

  lemma OptimizeRuns(cfg: Config, e: Core, n: nat)
    ensures RunsTo(cfg, e, n, Optimize(cfg, e, n).0, Optimize(cfg, e, n).1)
  {
    hide Pass, Passes;
    var steps := PassesRun(cfg, e, n, MaxPasses);
  }

  // ---- The rewriter object ----

  /** A rewriter remembers whether anything fired; the fresh-name counter is
      shared by all substitutions. */
  class Rewriter {
    const cfg: Config
    var changed: bool
    var counter: nat

    constructor (cfg: Config, counter: nat)
      ensures this.cfg == cfg && this.counter == counter && !changed
    {
      this.cfg := cfg;
      this.counter := counter;
      this.changed := false;
    }

    method Apply(c: Core) returns (r: Core)
      modifies this
      ensures var o := ApplyRules(cfg, c, old(counter));
        r == o.e && counter == o.n && changed == (old(changed) || o.fired)
    {
      var o := KnownDict(cfg, c, counter);
      var i := 0;
      while i < |cfg.rules|
        invariant 0 <= i <= |cfg.rules|
        invariant Registered(cfg.rules[i..], o) == ApplyRules(cfg, c, old(counter))
        invariant changed == old(changed) && counter == old(counter)
      {
        assert cfg.rules[i..][0] == cfg.rules[i] && cfg.rules[i..][1..] == cfg.rules[i + 1..];
        o := Then(o, cfg.rules[i]);
        i := i + 1;
      }
      r, counter := o.e, o.n;
      if o.fired { changed := true; }
    }

    method Transform(e: Core) returns (r: Core)
      modifies this
      ensures var o := Pass(cfg, e, old(counter));
        r == o.e && counter == o.n && changed == (old(changed) || o.fired)
      decreases e, 1
    {
      var es;
      if e.App? {
        es := TransformAll(e, [e.arg, e.fun]);
        es := [es[1], es[0]];
      } else {
        es := TransformAll(e, SubTerms(e));
      }
      r := Apply(WithKids(e, es));
    }

    method TransformAll(e: Core, es: seq<Core>) returns (rs: seq<Core>)
      requires forall i :: 0 <= i < |es| ==> es[i] < e
      modifies this
      ensures var p := PassAll(cfg, e, es, old(counter));
        rs == p.es && counter == p.n && changed == (old(changed) || p.fired)
      decreases e, 0
    {
      hide Pass, PassAll;
      rs := [];
      var i := 0;
      ghost var p := PassAll(cfg, e, es, old(counter));
      while i < |es|
        invariant 0 <= i <= |es| && |rs| == i
        invariant var q := PassAll(cfg, e, es[i..], counter);
          p.es == rs + q.es && p.n == q.n && (old(changed) || p.fired) == (changed || q.fired)
      {
        PassAllFrom(cfg, e, es, counter, i);
        var x := Transform(es[i]);
        rs := rs + [x];
        i := i + 1;
      }
      NoneLeft(cfg, e, es[i..], counter);
    }
  }

  /** Passes until nothing changes, at most four. */
  method RunOptimizer(cfg: Config, e: Core, n: nat) returns (r: Core, m: nat)
    ensures (r, m) == Optimize(cfg, e, n)
    ensures RunsTo(cfg, e, n, r, m)
  {
    hide Pass, IsRun, EndsIn;
    OptimizeRuns(cfg, e, n);
    r, m := e, n;
    var k := MaxPasses;
    while k > 0
      invariant 0 <= k <= MaxPasses
      invariant Passes(cfg, r, m, k) == Optimize(cfg, e, n)
      decreases k
    {
      var rw := new Rewriter(cfg, m);
      r := rw.Transform(r);
      m := rw.counter;
      if !rw.changed { break; }
      k := k - 1;
    }
  }

  // ---- Whole programs ----

  datatype Binding = Binding(name: Name, expr: Core, isGenerated: bool)

  function Unwrapped(e: Core): Core { if e.TyLam? then Unwrapped(e.body) else if e.Lam? then Unwrapped(e.body) else e }

  /** A generated binding that is a constructor or an application below its abstractions and does not mention itself. */
  predicate IsLocalDict(b: Binding) {
    b.isGenerated && (Unwrapped(b.expr).Con? || Unwrapped(b.expr).App?) && VarKey("", b.name) !in FreeVars(b.expr)
  }

  function LocalDicts(prog: seq<Binding>): Dicts {
    if prog == [] then map[]
    else
      var k := |prog| - 1;
      var before := LocalDicts(prog[..k]);
      if IsLocalDict(prog[k]) then before[VarKey("", prog[k].name) := prog[k].expr] else before
  }

  /** From `steps[0]` inwards, each the body of an abstraction over the next. */
  predicate Unwraps(steps: seq<Core>, e: Core, core: Core) {
    && |steps| > 0 && steps[0] == e && steps[|steps| - 1] == core
    && forall k :: 0 <= k < |steps| - 1 ==> Abstracts(steps[k], steps[k + 1])
  }

  /** `a` is a type or term abstraction over `b`. */
  predicate Abstracts(a: Core, b: Core) { (a.TyLam? && b == a.body) || (a.Lam? && b == a.body) }

  /** A generated binding: abstractions around a constructor or an application,
      which does not mention itself. */
  ghost predicate DictBinding(b: Binding) {
    && b.isGenerated && VarKey("", b.name) !in FreeVars(b.expr)
    && exists steps, core: Core :: Unwraps(steps, b.expr, core) && (core.Con? || core.App?)
  }

  lemma {:induction false} UnwrappedSteps(e: Core) returns (steps: seq<Core>)
    ensures Unwraps(steps, e, Unwrapped(e))
  {
    steps := [e];
    if e.TyLam? || e.Lam? {
      var rest := UnwrappedSteps(e.body);
      steps := [e] + rest;
      forall k | 0 <= k < |steps| - 1 ensures Abstracts(steps[k], steps[k + 1]) {
        if k > 0 { assert steps[k] == rest[k - 1] && steps[k + 1] == rest[k - 1 + 1]; }
      }
    }
  }

  lemma {:induction false} UnwrapsTo(steps: seq<Core>, e: Core, core: Core)
    requires Unwraps(steps, e, core) && (core.Con? || core.App?)
    ensures Unwrapped(e) == core
    decreases |steps|
  {
    if |steps| > 1 {
      assert Abstracts(steps[0], steps[0 + 1]);
      var rest := steps[1..];
      forall k | 0 <= k < |rest| - 1 ensures Abstracts(rest[k], rest[k + 1]) { assert Abstracts(steps[k + 1], steps[k + 1 + 1]); }
      UnwrapsTo(rest, steps[1], core);
    }
  }

  lemma IsDictBinding(b: Binding)
    ensures IsLocalDict(b) <==> DictBinding(b)
  {
    hide FreeVars;
    var steps := UnwrappedSteps(b.expr);
    if DictBinding(b) {
      var ss, core: Core :| Unwraps(ss, b.expr, core) && (core.Con? || core.App?);
      UnwrapsTo(ss, b.expr, core);
    }
  }

  /** Binding `i` is a local dictionary for the variable `g`, and the last one. */
  ghost predicate LastDict(prog: seq<Binding>, g: VarKey, i: int) {
    && 0 <= i < |prog| && DictBinding(prog[i]) && g == VarKey("", prog[i].name)
    && forall j :: i < j < |prog| ==> !DictBinding(prog[j]) || g != VarKey("", prog[j].name)
  }

  /** Exactly the local dictionaries are found, the last of a name deciding. */
  lemma {:induction false} LocalDictsIff(prog: seq<Binding>, g: VarKey)
    ensures g in LocalDicts(prog) <==> exists i :: LastDict(prog, g, i)
    ensures forall i :: LastDict(prog, g, i) ==> g in LocalDicts(prog) && LocalDicts(prog)[g] == prog[i].expr
  {
    hide IsLocalDict, DictBinding;
    if prog != [] {
      var k := |prog| - 1;
      var rest := prog[..k];
      LocalDictsIff(rest, g);
      IsDictBinding(prog[k]);
      if IsLocalDict(prog[k]) && g == VarKey("", prog[k].name) {
        assert LastDict(prog, g, k);
      } else {
        forall i | LastDict(rest, g, i) ensures LastDict(prog, g, i) {}
        forall i | LastDict(prog, g, i) ensures LastDict(rest, g, i) {}
      }
    }
  }

  /** Every binding optimized, one after another, on one counter. */
  function OptimizeAll(cfg: Config, prog: seq<Binding>, n: nat): (r: (seq<Binding>, nat))
    ensures |r.0| == |prog|
  {
    if prog == [] then ([], n)
    else
      var o := Optimize(cfg, prog[0].expr, n);
      var rest := OptimizeAll(cfg, prog[1..], o.1);
      ([prog[0].(expr := o.0)] + rest.0, rest.1)
  }

  /** Imported dictionaries hide those of the program. */
  function ConfigOf(external: Dicts, rules: seq<Rule>, prog: seq<Binding>): Config {
    Config(LocalDicts(prog) + external, rules)
  }

  /** A variable has a dictionary exactly when it is imported or the last local
      one of that name, imports first. */
  lemma ConfigDicts(external: Dicts, rules: seq<Rule>, prog: seq<Binding>, g: VarKey)
    ensures var cfg := ConfigOf(external, rules, prog);
      && cfg.rules == rules
      && (g in cfg.dicts <==> g in external || exists i :: LastDict(prog, g, i))
      && (g in external ==> cfg.dicts[g] == external[g])
      && (g !in external ==> forall i :: LastDict(prog, g, i) ==> cfg.dicts[g] == prog[i].expr)
  {
    hide LastDict, LocalDicts;
    LocalDictsIff(prog, g);
  }

  method CollectDicts(prog: array<Binding>) returns (dicts: Dicts)
    ensures dicts == LocalDicts(prog[..])
    ensures forall g :: g in dicts <==> exists i :: LastDict(prog[..], g, i)
    ensures forall g, i :: LastDict(prog[..], g, i) ==> dicts[g] == prog[i].expr
  {
    hide IsLocalDict, DictBinding;
    dicts := map[];
    for i := 0 to prog.Length
      invariant dicts == LocalDicts(prog[..i])
    {
      assert prog[..i + 1][..i] == prog[..i];
      if IsLocalDict(prog[i]) { dicts := dicts[VarKey("", prog[i].name) := prog[i].expr]; }
    }
    assert prog[..prog.Length] == prog[..];
    forall g, i | LastDict(prog[..], g, i) ensures g in dicts && dicts[g] == prog[i].expr { LocalDictsIff(prog[..], g); }
    forall g | g in dicts ensures exists i :: LastDict(prog[..], g, i) { LocalDictsIff(prog[..], g); }
  }

  /** The bindings of a program are overwritten in place. */
  method OptimizeProgram(external: Dicts, rules: seq<Rule>, prog: array<Binding>, n: nat) returns (m: nat)
    modifies prog
    ensures var all := OptimizeAll(ConfigOf(external, rules, old(prog[..])), old(prog[..]), n);
      prog[..] == all.0 && m == all.1
  {
    hide Optimize, LocalDicts, RunsTo, LastDict;
    var local := CollectDicts(prog);
    var cfg := Config(local + external, rules);
    m := n;
    ghost var before, all := prog[..], OptimizeAll(cfg, prog[..], n);
    assert before[0..] == before;
    for i := 0 to prog.Length
      invariant prog[i..] == before[i..]
      invariant var rest := OptimizeAll(cfg, before[i..], m); prog[..i] + rest.0 == all.0 && rest.1 == all.1
    {
      assert before[i..][0] == before[i] == prog[i] && before[i..][1..] == before[i + 1..];
      var e;
      ghost var rest := OptimizeAll(cfg, before[i..], m);
      e, m := RunOptimizer(cfg, prog[i].expr, m);
      prog[i] := prog[i].(expr := e);
      assert rest.0 == [prog[i]] + OptimizeAll(cfg, before[i + 1..], m).0;
      assert prog[..i + 1] == prog[..i] + [prog[i]];
    }
  }
}
