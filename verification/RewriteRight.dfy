/**
  Each rewrite, read through translation and erasure, changes nothing or is
  one contraction, and keeps terms neat.
 */
module RewriteRight {
  import opened CoreIR
  import opened Nameless
  import opened Translate
  import opened Subst
  import opened Hygiene
  import opened Records
  import opened Eval
  import opened Contract
  import opened Chains
  import opened EraseFacts
  import opened Mentions
  import opened NeatTerms
  import opened Rewrites

  /** The outcome is neat, and in every environment equal to the node or one
      contraction away from it. */
  ghost predicate Right1(c: Core, n: nat, q: View -> bool, o: Out) {
    n <= o.n && Neat(o.e, o.n, q) && forall env :: SameOrContracts(Er(c, env), Er(o.e, env))
  }

  ghost predicate SameOrContracts(u: Term, t: Term) { u == t || Contracts(u, t) }

  lemma Right1Better(w: World, D: Scope, c: Core, n: nat, q: View -> bool, o: Out)
    requires Right1(c, n, q, o)
    ensures Better(w, D, c, o.e)
  {
    hide Er, Refines, Contracts, Only, Closes;
    forall env ensures Refines(w, Er(c, env), Er(o.e, env)) && Narrows(D, Er(c, env), Er(o.e, env)) {
      assert SameOrContracts(Er(c, env), Er(o.e, env));
      if Er(c, env) == Er(o.e, env) { RefinesRefl(w, Er(c, env)); } else { RefinesContract(w, Er(c, env), Er(o.e, env)); }
      forall G: Keys | Only(Er(c, env), G) ensures Only(Er(o.e, env), G) {
        if Er(c, env) != Er(o.e, env) { ContractsOnly(Er(c, env), Er(o.e, env), G); }
      }
    }
  }

  lemma KeptRight(c: Core, n: nat, q: View -> bool)
    requires Neat(c, n, q) && Stable(q, n)
    ensures Right1(c, n, q, Kept(c, n))
  {
    hide Er, Contracts;
  }

  lemma OtherOk(q: View -> bool, n: nat)
    requires Stable(q, n)
    ensures q(OtherView)
  {
  }

  lemma ErApp(c: Core, env: Env)
    requires c.App?
    ensures Er(c, env) == Node(OApp, [Kid(0, Er(c.fun, env)), Kid(0, Er(c.arg, env))])
  {
    hide Er;
    ErPlain(c, env);
    assert Kids(c) == [c.fun, c.arg];
    assert Args(ErAll(Kids(c), env)) == [Kid(0, Er(c.fun, env)), Kid(0, Er(c.arg, env))];
  }

  lemma ErOne(c: Core, e: Core, env: Env)
    requires !c.Var? && !c.TyApp? && !c.TyLam? && !Binds(c) && Kids(c) == [e]
    ensures Er(c, env) == Node(OpOf(c), [Kid(0, Er(e, env))])
  {
    hide Er, Kids;
    ErPlain(c, env);
    assert Args(ErAll([e], env)) == [Kid(0, Er(e, env))];
  }

  // ---- Substituting rewrites ----

  lemma BetaReduceRight(c: Core, n: nat, q: View -> bool)
    requires Neat(c, n, q) && Stable(q, n)
    ensures var o := BetaReduce(c, n);
      Right1(c, n, q, o) && (o.fired ==> forall env :: Beta(Er(c, env), Er(o.e, env)))
  {
    hide Er, Neat, Stable, SubstFV, Act, FreeNames, Extend;
    if c.App? && c.fun.Lam? {
      var f, o := c.fun, BetaReduce(c, n);
      NeatPlain(c, n, q);
      assert Kids(c) == [f, c.arg];
      assert Neat(Kids(c)[0], n, q) && Neat(Kids(c)[1], n, q);
      NeatLam(f, n, q);
      SubstOne(f.body, f.param, c.arg, n, q, map[]);
      forall env ensures Beta(Er(c, env), Er(o.e, env)) {
        SubstOne(f.body, f.param, c.arg, n, q, env);
        ErApp(c, env);
        ErLam(f, env);
      }
    } else {
      KeptRight(c, n, q);
    }
  }

  lemma BindPureElimRight(c: Core, n: nat, q: View -> bool)
    requires Neat(c, n, q) && Stable(q, n)
    ensures var o := BindPureElim(c, n);
      Right1(c, n, q, o) && (o.fired ==> forall env :: BindPure(Er(c, env), Er(o.e, env)))
  {
    hide Er, Neat, Stable, SubstFV, Act, FreeNames, Extend;
    if c.Bind? && c.comp.Pure? {
      var p, o := c.comp, BindPureElim(c, n);
      NeatBind(c, n, q);
      NeatPlain(p, n, q);
      assert Kids(p) == [p.expr];
      assert Neat(Kids(p)[0], n, q);
      SubstOne(c.body, c.bvar, p.expr, n, q, map[]);
      forall env ensures BindPure(Er(c, env), Er(o.e, env)) {
        SubstOne(c.body, c.bvar, p.expr, n, q, env);
        ErBind(c, env);
        ErOne(p, p.expr, env);
      }
    } else {
      KeptRight(c, n, q);
    }
  }

  // ---- Rewrites that only move subterms ----

  lemma ForceThunkElimRight(c: Core, n: nat, q: View -> bool)
    requires Neat(c, n, q) && Stable(q, n)
    ensures var o := ForceThunkElim(c, n);
      Right1(c, n, q, o) && (o.fired ==> forall env :: ForceThunk(Er(c, env), Er(o.e, env)))
  {
    hide Er, Neat, Stable;
    if c.Force? && c.expr.Thunk? {
      var t, o := c.expr, ForceThunkElim(c, n);
      NeatPlain(c, n, q);
      assert Kids(c) == [t];
      assert Neat(Kids(c)[0], n, q);
      NeatPlain(t, n, q);
      assert Kids(t) == [t.comp];
      assert Neat(Kids(t)[0], n, q);
      forall env ensures ForceThunk(Er(c, env), Er(o.e, env)) {
        ErOne(c, t, env);
        ErOne(t, t.comp, env);
      }
    } else {
      KeptRight(c, n, q);
    }
  }

  /** The erased fields of a record. */
  function ErFields(fs: seq<Field>, env: Env): seq<Fd<Term>> {
    seq(|fs|, i requires 0 <= i < |fs| => Fd(fs[i].lbl, Er(fs[i].value, env)))
  }

  lemma ErRecord(e: Core, env: Env)
    requires e.RecordLit?
    ensures IsLiteralRecord(Er(e, env)) && FieldsOf(Er(e, env)) == ErFields(e.fields, env)
  {
    hide Er;
    ErPlain(e, env);
    assert forall i :: 0 <= i < |e.fields| ==> Kids(e)[i] == e.fields[i].value;
    assert Bodies(Er(e, env).kids) == ErAll(Kids(e), env);
    assert FieldsOf(Er(e, env)) == ErFields(e.fields, env);
  }

  lemma {:induction false} FieldIndexGet(fs: seq<Field>, l: string, env: Env)
    ensures Get(ErFields(fs, env), l)
         == if FieldIndex(fs, l) < |fs| then Just(Er(fs[FieldIndex(fs, l)].value, env)) else Nothing
  {
    hide Er;
    if fs != [] && fs[0].lbl != l {
      FieldIndexGet(fs[1..], l, env);
      assert ErFields(fs[1..], env) == ErFields(fs, env)[1..];
    }
  }

  lemma RecordProjKnownRight(c: Core, n: nat, q: View -> bool)
    requires Neat(c, n, q) && Stable(q, n)
    ensures var o := RecordProjKnown(c, n);
      Right1(c, n, q, o) && (o.fired ==> forall env :: ProjKnown(Er(c, env), Er(o.e, env)))
  {
    hide Er, Neat, Stable;
    var o := RecordProjKnown(c, n);
    if o.fired {
      var r := c.record;
      var i := FieldIndex(r.fields, c.lbl);
      NeatPlain(c, n, q);
      assert Kids(c) == [r];
      assert Neat(Kids(c)[0], n, q);
      NeatPlain(r, n, q);
      assert Kids(r)[i] == r.fields[i].value;
      forall env ensures ProjKnown(Er(c, env), Er(o.e, env)) {
        ErOne(c, r, env);
        ErRecord(r, env);
        FieldIndexGet(r.fields, c.lbl, env);
      }
    } else {
      KeptRight(c, n, q);
    }
  }

  lemma UpdateKids(e: Core)
    requires e.RecordUpdate?
    ensures var ks := Kids(e);
      |ks| == 1 + |e.updates| && ks[0] == e.record && forall i :: 0 <= i < |e.updates| ==> ks[i + 1] == e.updates[i].value
  {
  }

  lemma ErUpdate(e: Core, env: Env)
    requires e.RecordUpdate?
    ensures Er(e, env) == UpdateNode(Er(e.record, env), ErFields(e.updates, env))
    ensures var u := Er(e, env);
      IsUpdate(u) && u.op.labels == Labels(e.updates) && UpdatesOf(u) == ErFields(e.updates, env)
  {
    hide Er, Kids;
    UpdateKids(e);
    ErPlain(e, env);
    var u, fs := Er(e, env), ErFields(e.updates, env);
    assert u.kids == [Kid(0, Er(e.record, env))] + Args(ValuesOf(fs));
    assert LabelsOf(fs) == Labels(e.updates);
    assert Bodies(u.kids[1..]) == ValuesOf(fs);
    assert UpdatesOf(u) == fs;
  }

  lemma LabelIn(vs: seq<Field>, l: string)
    ensures l in Labels(vs) <==> exists i :: 0 <= i < |vs| && vs[i].lbl == l
  {
    assert forall i :: 0 <= i < |vs| ==> Labels(vs)[i] == vs[i].lbl;
  }

  lemma ErFieldsCount(fs: seq<Field>, env: Env)
    ensures |ErFields(fs, env)| == |fs|
  {
  }

  lemma ErFieldsCons(f: Field, fs: seq<Field>, env: Env)
    ensures ErFields([f] + fs, env) == [Fd(f.lbl, Er(f.value, env))] + ErFields(fs, env)
  {
  }

  lemma {:induction false} WithoutUnshadowed(us: seq<Field>, vs: seq<Field>, env: Env)
    ensures ErFields(Without(us, vs), env) == Unshadowed(ErFields(us, env), Labels(vs))
  {
    hide Er, ErFields, Labels;
    if us == [] {
      ErFieldsCount(us, env);
    } else {
      WithoutUnshadowed(us[1..], vs, env);
      LabelIn(vs, us[0].lbl);
      assert us == [us[0]] + us[1..];
      ErFieldsCons(us[0], us[1..], env);
      ErFieldsCons(us[0], Without(us[1..], vs), env);
      assert ErFields(us, env)[1..] == ErFields(us[1..], env);
    }
  }

  lemma {:induction false} WithoutAmong(us: seq<Field>, vs: seq<Field>)
    ensures forall i :: 0 <= i < |Without(us, vs)| ==> Without(us, vs)[i] in us
  {
    if us != [] { WithoutAmong(us[1..], vs); }
  }

  ghost predicate NeatFields(fs: seq<Field>, n: nat, q: View -> bool) { forall i :: 0 <= i < |fs| ==> Neat(fs[i].value, n, q) }

  lemma NeatUpdate(e: Core, n: nat, q: View -> bool)
    requires e.RecordUpdate?
    ensures Neat(e, n, q) <==> q(OtherView) && Neat(e.record, n, q) && NeatFields(e.updates, n, q)
  {
    hide Neat, Kids;
    UpdateKids(e);
    NeatPlain(e, n, q);
    var ks := Kids(e);
    if NeatAll(ks, n, q) {
      forall i | 0 <= i < |e.updates| ensures Neat(e.updates[i].value, n, q) { assert Neat(ks[i + 1], n, q); }
    }
    if Neat(e.record, n, q) && NeatFields(e.updates, n, q) {
      forall i | 0 <= i < |ks| ensures Neat(ks[i], n, q) { if i > 0 { assert ks[i] == e.updates[i - 1].value; } }
    }
  }

  lemma RecordUpdateChainRight(c: Core, n: nat, q: View -> bool)
    requires Neat(c, n, q) && Stable(q, n)
    ensures var o := RecordUpdateChain(c, n);
      Right1(c, n, q, o) && (o.fired ==> forall env :: UpdateChain(Er(c, env), Er(o.e, env)))
  {
    hide Er, Neat, Stable, Without, IsUpdate, UpdatesOf, UpdateNode, Unshadowed;
    var o := RecordUpdateChain(c, n);
    if c.RecordUpdate? && c.record.RecordUpdate? {
      var inner := c.record;
      NeatUpdate(c, n, q);
      NeatUpdate(inner, n, q);
      WithoutAmong(inner.updates, c.updates);
      assert NeatFields(o.e.updates, n, q);
      OtherOk(q, n);
      NeatUpdate(o.e, n, q);
      forall env ensures UpdateChain(Er(c, env), Er(o.e, env)) {
        WithoutUnshadowed(inner.updates, c.updates, env);
        ErUpdate(c, env);
        ErUpdate(inner, env);
        ErUpdate(o.e, env);
        assert ErFields(o.e.updates, env) == ErFields(Without(inner.updates, c.updates), env) + ErFields(c.updates, env);
        UpdateIs(Er(inner.record, env), ErFields(inner.updates, env), Er(inner, env));
        UpdateIs(Er(inner, env), ErFields(c.updates, env), Er(c, env));
      }
    } else {
      KeptRight(c, n, q);
    }
  }

  lemma UpdateIs(r: Term, fs: seq<Fd<Term>>, u: Term)
    requires u == UpdateNode(r, fs)
    ensures u.Node? && |u.kids| > 0 && u.kids[0].body == r
  {
  }

  lemma {:induction false} PeelErases(e: Core, env: Env)
    ensures Er(PeelTyApps(e), env) == Er(e, env)
  {
    hide Er;
    if e.TyApp? {
      ErTypes(e, env);
      PeelErases(e.expr, env);
    }
  }

  lemma {:induction false} PeelNeat(e: Core, n: nat, q: View -> bool)
    requires Neat(e, n, q)
    ensures Neat(PeelTyApps(e), n, q)
  {
    hide Neat;
    if e.TyApp? {
      NeatPlain(e, n, q);
      assert Kids(e) == [e.expr];
      assert Neat(Kids(e)[0], n, q);
      PeelNeat(e.expr, n, q);
    }
  }

  lemma PrimOpAbsorbRight(c: Core, n: nat, q: View -> bool)
    requires Neat(c, n, q) && Stable(q, n)
    ensures var o := PrimOpAbsorb(c, n);
      Right1(c, n, q, o) && (o.fired ==> forall env :: PrimAbsorb(Er(c, env), Er(o.e, env)))
  {
    hide Er, Neat, Stable, PeelTyApps;
    var o := PrimOpAbsorb(c, n);
    if o.fired {
      var p := PeelTyApps(c.fun);
      NeatPlain(c, n, q);
      assert Kids(c) == [c.fun, c.arg];
      assert Neat(Kids(c)[0], n, q) && Neat(Kids(c)[1], n, q);
      PeelNeat(c.fun, n, q);
      PrimArgs(p);
      PrimArgs(o.e);
      NeatPlain(p, n, q);
      OtherOk(q, n);
      NeatPlain(o.e, n, q);
      forall env ensures PrimAbsorb(Er(c, env), Er(o.e, env)) {
        PeelErases(c.fun, env);
        ErApp(c, env);
        ErPlain(p, env);
        ErPlain(o.e, env);
        assert Args(ErAll(o.e.args, env)) == Args(ErAll(p.args, env)) + [Kid(0, Er(c.arg, env))];
      }
    } else {
      KeptRight(c, n, q);
    }
  }

  lemma PrimArgs(e: Core)
    requires e.PrimOp?
    ensures Kids(e) == e.args
  {
  }
}
