/**
  A condition on a whole program, its imported dictionaries and the initial
  globals alone, under which optimizing all its bindings is safe: each binding
  is tidy and mentions only dictionaries that are loaded before it.
 */
module ProgramTidy {
  import opened CoreIR
  import opened Nameless
  import opened Translate
  import opened Records
  import opened Eval
  import opened EvalFacts
  import opened EraseFacts
  import opened NeatTerms
  import opened Rewrites
  import opened DictRules
  import opened Optimizer
  import opened OptimizerRight
  import opened Spines
  import opened Tidy
  import opened ProgramRight

  /** What a scheme asks of a dictionary, apart from its value. */
  ghost predicate DictShape(sch: Scheme, n: nat, g: VarKey, d: Core) {
    && (g.mod == "" ==> g.name in sch.kept) && (forall x :: IsLocal(d, x) ==> x in sch.kept)
    && SpinedDict(sch.sigs, d) && Neat(Settled(d), n, TidyFor(sch))
  }

  ghost predicate HoldsValue(w: World, g: VarKey, d: Core) {
    g in w.globals && exists m: nat :: Ev(w, m, Meaning(d)) == Just(w.globals[g])
  }

  /** Of the bindings `bs`, in the order they are loaded in, the one at `i` is
      tidy for its scheme; imported dictionaries and those loaded before it fit
      it; those loaded after it are not mentioned. */
  ghost predicate TidyBinding(external: Dicts, cfg: Config, bs: seq<Binding>, sch: Scheme, i: nat, n: nat)
    requires i < |bs|
  {
    && sch.banned <= sch.kept
    && Neat(bs[i].expr, n, TidyFor(sch)) && Spined(sch.sigs, bs[i].expr, 0)
    && (forall x: World :: SoundRules(x, ScopeOf(sch, cfg.dicts), TidyFor(sch), cfg.rules)) && SpinedRules(sch.sigs, cfg.rules)
    && (forall g :: g in external ==> DictShape(sch, n, g, external[g]))
    && (forall j :: 0 <= j < i && IsLocalDict(bs[j]) ==> DictShape(sch, n, VarKey("", bs[j].name), bs[j].expr))
    && (forall j :: i <= j < |bs| && IsLocalDict(bs[j]) ==> bs[j].name in sch.banned)
  }

  ghost predicate TidyProgram(w: World, external: Dicts, cfg: Config, bs: seq<Binding>, schs: seq<Scheme>, n: nat) {
    && |schs| == |bs| && (forall i :: 0 <= i < |bs| ==> TidyBinding(external, cfg, bs, schs[i], i, n))
    && (forall g :: g in external ==> HoldsValue(w, g, external[g]))
  }

  ghost predicate LocalDictAt(bs: seq<Binding>, g: VarKey, d: Core, j: int) {
    0 <= j < |bs| && IsLocalDict(bs[j]) && g == VarKey("", bs[j].name) && d == bs[j].expr
  }

  /** Every dictionary of `cfg` is imported or one of the bindings. */
  ghost predicate Supplies(external: Dicts, bs: seq<Binding>, cfg: Config) {
    forall g :: g in cfg.dicts ==>
      (g in external && cfg.dicts[g] == external[g]) || (g !in external && exists j :: LocalDictAt(bs, g, cfg.dicts[g], j))
  }

  lemma ConfigSupplies(external: Dicts, rules: seq<Rule>, prog: seq<Binding>, order: seq<nat>)
    requires IsOrder(order, |prog|)
    ensures Supplies(external, Along(prog, order), ConfigOf(external, rules, prog))
  {
    hide LocalDicts, IsLocalDict, DictBinding;
    var cfg, bs := ConfigOf(external, rules, prog), Along(prog, order);
    forall g | g in cfg.dicts && g !in external ensures exists j :: LocalDictAt(bs, g, cfg.dicts[g], j) {
      LocalDictsIff(prog, g);
      var i :| LastDict(prog, g, i);
      IsDictBinding(prog[i]);
      assert i in order;
      var j :| 0 <= j < |order| && order[j] == i;
      assert LocalDictAt(bs, g, cfg.dicts[g], j);
    }
  }

  /** The world after the first `k` bindings: their names and no others are
      new, and every dictionary it has stands for its definition. */
  ghost predicate Loaded(w0: World, w: World, cfg: Config, bs: seq<Binding>, k: nat) {
    && k <= |bs| && WorldOk(w)
    && (forall g :: g in w.globals <==> g in w0.globals || exists j :: 0 <= j < k && g == VarKey("", bs[j].name))
    && (forall g :: g in cfg.dicts && g in w.globals ==> HoldsValue(w, g, cfg.dicts[g]))
  }

  lemma NotLoaded(w0: World, w: World, cfg: Config, bs: seq<Binding>, k: nat)
    requires Loaded(w0, w, cfg, bs, k) && Unbound(w0, bs)
    ensures forall j :: k <= j < |bs| ==> VarKey("", bs[j].name) !in w.globals
  {
    hide WorldOk, HoldsValue;
  }

  lemma BindingTidy(w0: World, w: World, external: Dicts, cfg: Config, bs: seq<Binding>, sch: Scheme, k: nat, n: nat, m: nat)
    requires k < |bs| && TidyBinding(external, cfg, bs, sch, k, n) && n <= m && Unbound(w0, bs)
    requires Supplies(external, bs, cfg) && Loaded(w0, w, cfg, bs, k) && forall g :: g in external ==> g in w0.globals
    ensures TidySetting(w, sch, cfg, m) && Neat(bs[k].expr, m, TidyFor(sch))
  {
    hide Neat, WorldOk, HoldsValue, IsLocalDict, SoundRules, IsLocal, Spined, SpinedDict, SpinedRules;
    NeatLater(bs[k].expr, n, m, TidyFor(sch));
    NotLoaded(w0, w, cfg, bs, k);
    forall g | g in cfg.dicts ensures g in w.globals || (g.mod == "" && g.name in sch.banned) {
      if g !in external { var j :| LocalDictAt(bs, g, cfg.dicts[g], j); }
    }
    forall g | g in cfg.dicts && g in w.globals
      ensures DictOk(w, ScopeOf(sch, cfg.dicts), TidyFor(sch), m, g, cfg.dicts[g]) && SpinedDict(sch.sigs, cfg.dicts[g])
    {
      assert HoldsValue(w, g, cfg.dicts[g]);
      if g !in external {
        var j :| LocalDictAt(bs, g, cfg.dicts[g], j);
        assert DictShape(sch, n, g, bs[j].expr);
      }
      ShapeOk(w, sch, cfg.dicts, n, m, g, cfg.dicts[g]);
    }
  }

  lemma ShapeOk(w: World, sch: Scheme, dicts: Dicts, n: nat, m: nat, g: VarKey, d: Core)
    requires g in dicts && dicts[g] == d && DictShape(sch, n, g, d) && HoldsValue(w, g, d) && n <= m
    ensures DictOk(w, ScopeOf(sch, dicts), TidyFor(sch), m, g, d) && SpinedDict(sch.sigs, d)
  {
    hide Neat, Ev, Meaning, Head, SpineArgs, Spined;
    NeatLater(Settled(d), n, m, TidyFor(sch));
  }

  /** Loading one more binding. */
  lemma LoadedNext(w0: World, w: World, external: Dicts, cfg: Config, bs: seq<Binding>, k: nat, f: nat, v: Term)
    requires Supplies(external, bs, cfg) && forall g :: g in external ==> g in w0.globals
    requires Loaded(w0, w, cfg, bs, k) && k < |bs| && Unbound(w0, bs) && Gives(w, f, bs[k].expr, v)
    ensures Loaded(w0, With(w, bs[k].name, v), cfg, bs, k + 1)
  {
    hide Ev, Closed, IsValue, IsLocalDict, Meaning;
    var w1, new1 := With(w, bs[k].name, v), VarKey("", bs[k].name);
    MeaningClosed(bs[k].expr);
    EvGood(w, f, Meaning(bs[k].expr));
    NotLoaded(w0, w, cfg, bs, k);
    assert Within(w, w1);
    forall g | g in cfg.dicts && g in w1.globals ensures HoldsValue(w1, g, cfg.dicts[g]) {
      if g == new1 {
        var j :| LocalDictAt(bs, g, cfg.dicts[g], j);
        assert j == k;
        EvWithin(w, w1, f, Meaning(bs[k].expr));
      } else {
        assert HoldsValue(w, g, cfg.dicts[g]);
        var m: nat :| Ev(w, m, Meaning(cfg.dicts[g])) == Just(w.globals[g]);
        EvWithin(w, w1, m, Meaning(cfg.dicts[g]));
      }
    }
  }

  ghost predicate StartLate(ts: seq<Task>, n: nat) { forall i :: 0 <= i < |ts| ==> n <= ts[i].n }

  lemma {:induction false} TidyGuarded(w0: World, w: World, external: Dicts, cfg: Config, ts: seq<Task>, schs: seq<Scheme>, n: nat, k: nat)
    requires Supplies(external, Before(ts), cfg) && TidyProgram(w0, external, cfg, Before(ts), schs, n)
    requires Unbound(w0, Before(ts)) && StartLate(ts, n) && Loaded(w0, w, cfg, Before(ts), k)
    ensures Guarded(w, cfg, ts[k..])
    decreases |ts| - k
  {
    hide Neat, TidyBinding, Loaded, Gives, Passes, PassesGuard, Setting, TidySetting, Supplies, Unbound;
    var bs := Before(ts);
    LoadedCount(w0, w, cfg, bs, k);
    var rest := ts[k..];
    if k < |ts| {
      var b, sch, m := ts[k].b, schs[k], ts[k].n;
      assert rest[0] == ts[k] && rest[1..] == ts[k + 1..] && bs[k] == b;
      assert TidyBinding(external, cfg, bs, sch, k, n);
      ExternalHeld(w0, external, cfg, bs, schs, n);
      BindingTidy(w0, w, external, cfg, bs, sch, k, n, m);
      BindingSpined(external, cfg, bs, sch, k, n);
      TidySets(w, sch, cfg, m);
      TidyPasses(w, sch, cfg, b.expr, m, MaxPasses);
      assert BindingOk(w, cfg, b.expr, m);
      forall f: nat, v | Gives(w, f, b.expr, v) ensures Guarded(With(w, b.name, v), cfg, ts[k + 1..]) {
        LoadedNext(w0, w, external, cfg, bs, k, f, v);
        TidyGuarded(w0, With(w, b.name, v), external, cfg, ts, schs, n, k + 1);
      }
    }
  }

  lemma BindingSpined(external: Dicts, cfg: Config, bs: seq<Binding>, sch: Scheme, i: nat, n: nat)
    requires i < |bs| && TidyBinding(external, cfg, bs, sch, i, n)
    ensures Spined(sch.sigs, bs[i].expr, 0)
  {
  }

  lemma LoadedCount(w0: World, w: World, cfg: Config, bs: seq<Binding>, k: nat)
    requires Loaded(w0, w, cfg, bs, k)
    ensures k <= |bs|
  {
  }

  lemma ExternalHeld(w: World, external: Dicts, cfg: Config, bs: seq<Binding>, schs: seq<Scheme>, n: nat)
    requires TidyProgram(w, external, cfg, bs, schs, n)
    ensures forall g :: g in external ==> g in w.globals
  {
    hide TidyBinding, Ev, Meaning;
    forall g | g in external ensures g in w.globals { assert HoldsValue(w, g, external[g]); }
  }

  lemma LoadedNone(w: World, external: Dicts, cfg: Config, bs: seq<Binding>)
    requires WorldOk(w) && Unbound(w, bs) && Supplies(external, bs, cfg)
    requires forall g :: g in external ==> HoldsValue(w, g, external[g])
    ensures Loaded(w, w, cfg, bs, 0)
  {
    hide HoldsValue, IsLocalDict, WorldOk;
    forall g | g in cfg.dicts && g !in external ensures g !in w.globals { var j :| LocalDictAt(bs, g, cfg.dicts[g], j); }
  }

  /** Optimizing a program that is tidy in the order it is loaded in, its own
      dictionaries inlined wherever a case looks them up, loads in that order as
      the original does. */
  lemma OptimizeProgramTidy(w: World, external: Dicts, rules: seq<Rule>, prog: seq<Binding>, schs: seq<Scheme>, n: nat, order: seq<nat>, done: World)
    requires WorldOk(w) && Unbound(w, prog) && IsOrder(order, |prog|)
    requires TidyProgram(w, external, ConfigOf(external, rules, prog), Along(prog, order), schs, n) && Loads(w, Along(prog, order), done)
    ensures LoadsLike(w, Along(OptimizeAll(ConfigOf(external, rules, prog), prog, n).0, order), done)
  {
    hide TidyBinding, Loads, LoadsLike, Guarded, HoldsValue, Loaded, OptimizeAll, ConfigOf, Supplies, Unbound, Tasks;
    var cfg, bs := ConfigOf(external, rules, prog), Along(prog, order);
    var ts := Along(Tasks(cfg, prog, n), order);
    TasksAre(cfg, prog, n);
    assert Before(ts) == bs;
    ConfigSupplies(external, rules, prog, order);
    UnboundAlong(w, prog, order);
    LoadedNone(w, external, cfg, bs);
    TidyGuarded(w, w, external, cfg, ts, schs, n, 0);
    assert ts[0..] == ts;
    OptimizeProgramRight(w, cfg, prog, n, order, done);
  }
}
