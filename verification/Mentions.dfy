/**
  Which globals a term mentions, and that evaluation looks at no others than
  those it mentions and those that their values mention in turn.
 */
module Mentions {
  import opened CoreIR
  import opened Nameless
  import opened Translate
  import opened Order
  import opened Records
  import opened Eval
  import opened Contract
  import opened EraseFacts

  type Keys = VarKey -> bool

  /** Every global in `t` is one of `G`. */
  ghost predicate Only(t: Term, G: Keys) {
    match t
    case Bound(_) => true
    case Free(k) => G(k)
    case Node(_, kids) => OnlyKids(kids, G)
  }

  ghost predicate OnlyKids(kids: seq<Kid>, G: Keys) {
    forall i :: 0 <= i < |kids| ==> (assert kids[i].body < kids[i]; Only(kids[i].body, G))
  }

  ghost predicate OnlyAll(us: seq<Term>, G: Keys) { forall i :: 0 <= i < |us| ==> Only(us[i], G) }

  ghost predicate OnlyFields(fs: seq<Fd<Term>>, G: Keys) { forall i :: 0 <= i < |fs| ==> Only(fs[i].val, G) }

  lemma {:induction false} OnlyMore(t: Term, G: Keys, H: Keys)
    requires Only(t, G) && forall k :: G(k) ==> H(k)
    ensures Only(t, H)
  {
    if t.Node? {
      forall i | 0 <= i < |t.kids| ensures Only(t.kids[i].body, H) {
        assert t.kids[i].body < t.kids[i];
        OnlyMore(t.kids[i].body, G, H);
      }
    }
  }

  // ---- Terms from Core ----

  lemma {:induction false} ShiftOnly(t: Term, k: nat, c: nat, G: Keys)
    requires Only(t, G)
    ensures Only(Shift(t, k, c), G)
  {
    if t.Node? {
      forall i | 0 <= i < |t.kids| ensures Only(Shift(t.kids[i].body, k, c + t.kids[i].binds), G) {
        assert t.kids[i].body < t.kids[i];
        ShiftOnly(t.kids[i].body, k, c + t.kids[i].binds, G);
      }
    }
  }

  lemma {:induction false} TransOnly(e: Core, env: Env, G: Keys)
    requires forall x :: x in env ==> Only(env[x], G)
    requires forall k :: k in FreeVars(e) ==> G(k) || (k.mod == "" && k.name in env)
    ensures Only(Trans(e, env), G)
  {
    hide Scopes;
    if !e.Var? {
      var ss := Scopes(e);
      forall i | 0 <= i < |ss| ensures Only(Trans(ss[i].body, Extend(env, ss[i].names)), G) {
        var xs, env' := ss[i].names, Extend(env, ss[i].names);
        DroppedAreBound(e, i);
        forall x | x in env' ensures Only(env'[x], G) {
          if x !in xs { ShiftOnly(env[x], |xs|, 0, G); }
        }
        forall k | k in FreeVars(ss[i].body) ensures G(k) || (k.mod == "" && k.name in env') {
          if k !in LocalKeys(ss[i].dropped) { assert k in FreeVars(ss[i].body) - LocalKeys(ss[i].dropped); assert k in FreeVars(e); }
        }
        TransOnly(ss[i].body, env', G);
      }
    }
  }

  lemma {:induction false} EraseOnly(t: Term, G: Keys)
    requires Only(t, G)
    ensures Only(Erase(t), G)
  {
    if t.Node? {
      forall i | 0 <= i < |t.kids| ensures Only(Erase(t.kids[i].body), G) {
        assert t.kids[i].body < t.kids[i];
        EraseOnly(t.kids[i].body, G);
      }
      EraseNode(t.op, t.kids);
    }
  }

  /** The meaning of an expression mentions its free variables only. */
  lemma MeaningOnly(e: Core, G: Keys)
    requires forall k :: k in FreeVars(e) ==> G(k)
    ensures Only(Meaning(e), G)
  {
    TransOnly(e, map[], G);
    EraseOnly(Trans(e, map[]), G);
  }

  // ---- Evaluation ----

  lemma {:induction false} InstOnly(t: Term, us: seq<Term>, c: nat, G: Keys)
    requires Only(t, G) && OnlyAll(us, G)
    ensures Only(Act(t, Inst(us), c), G)
  {
    match t
    case Bound(i) => if c <= i < c + |us| { ShiftOnly(us[i - c], c, 0, G); }
    case Free(_) =>
    case Node(_, kids) =>
      forall i | 0 <= i < |kids| ensures Only(Act(kids[i].body, Inst(us), c + kids[i].binds), G) {
        assert kids[i].body < kids[i];
        InstOnly(kids[i].body, us, c + kids[i].binds, G);
      }
  }

  lemma {:induction false} InsertOnly(fs: seq<Fd<Term>>, l: string, v: Term, G: Keys)
    requires OnlyFields(fs, G) && Only(v, G)
    ensures OnlyFields(Insert(fs, l, v), G)
  {
    hide Only;
    if fs != [] && fs[0].lbl != l && !Less(l, fs[0].lbl) { InsertOnly(fs[1..], l, v, G); }
  }

  lemma {:induction false} PutOnly(fs: seq<Fd<Term>>, us: seq<Fd<Term>>, G: Keys)
    requires OnlyFields(fs, G) && OnlyFields(us, G)
    ensures OnlyFields(Put(fs, us), G)
    decreases |us|
  {
    hide Only;
    if us != [] {
      InsertOnly(fs, us[0].lbl, us[0].val, G);
      PutOnly(Insert(fs, us[0].lbl, us[0].val), us[1..], G);
    }
  }

  lemma RecordOnly(fs: seq<Fd<Term>>, G: Keys)
    requires OnlyFields(fs, G)
    ensures Only(RecordOf(fs), G)
  {
    var v := RecordOf(fs);
    assert forall i :: 0 <= i < |v.kids| ==> v.kids[i].body == fs[i].val;
  }

  lemma FieldsOnly(v: Term, G: Keys)
    requires Only(v, G) && v.Node? && v.op.ORecord? && |v.op.labels| == |v.kids|
    ensures OnlyFields(FieldsOf(v), G)
  {
    var fs := FieldsOf(v);
    assert OnlyKids(v.kids, G);
    forall i | 0 <= i < |fs| ensures Only(fs[i].val, G) { assert fs[i].val == v.kids[i].body; }
  }

  lemma ZipOnly(ls: seq<string>, vs: seq<Term>, G: Keys)
    requires |ls| == |vs| && OnlyAll(vs, G)
    ensures OnlyFields(Zip(ls, vs), G)
  {
    hide Only;
  }

  lemma BodiesOnly(v: Term, G: Keys)
    requires Only(v, G) && v.Node?
    ensures OnlyAll(Bodies(v.kids), G)
  {
    assert OnlyKids(v.kids, G);
    forall i | 0 <= i < |v.kids| ensures Only(Bodies(v.kids)[i], G) { assert Bodies(v.kids)[i] == v.kids[i].body; }
  }

  lemma ArgsOnly(op: Op, vs: seq<Term>, G: Keys)
    requires OnlyAll(vs, G)
    ensures Only(Node(op, Args(vs)), G)
  {
    assert forall i :: 0 <= i < |vs| ==> Args(vs)[i].body == vs[i];
  }

  lemma {:induction false} GroundOnly(v: Term, G: Keys)
    requires Ground(v)
    ensures Only(v, G)
  {
    forall i | 0 <= i < |v.kids| ensures Only(v.kids[i].body, G) {
      assert v.kids[i].body < v.kids[i];
      GroundOnly(v.kids[i].body, G);
    }
  }

  lemma {:induction false} MatchOnly(p: Shape, v: Term, G: Keys)
    requires Only(v, G)
    ensures Match(p, v).Just? ==> OnlyAll(Match(p, v).value, G)
  {
    hide Only;
    match p
    case SCon(c, _, args) =>
      if v.Node? && |v.kids| == |args| {
        BodiesOnly(v, G);
        MatchAllOnly(args, Bodies(v.kids), G);
      }
    case SRecord(fs) =>
      if v.Node? && v.op.ORecord? && |v.op.labels| == |v.kids| {
        FieldsOnly(v, G);
        MatchFieldsOnly(fs, FieldsOf(v), G);
      }
    case SLabel(_, _) =>
      if v.Node? && |v.kids| == 1 {
        BodiesOnly(v, G);
        assert Bodies(v.kids)[0] == v.kids[0].body;
      }
    case _ =>
  }

  lemma {:induction false} MatchAllOnly(ps: seq<Shape>, vs: seq<Term>, G: Keys)
    requires |ps| == |vs| && OnlyAll(vs, G)
    ensures MatchAll(ps, vs).Just? ==> OnlyAll(MatchAll(ps, vs).value, G)
  {
    hide Only;
    if ps != [] {
      MatchOnly(ps[0], vs[0], G);
      MatchAllOnly(ps[1..], vs[1..], G);
    }
  }

  lemma {:induction false} MatchFieldsOnly(ps: seq<SField>, fs: seq<Fd<Term>>, G: Keys)
    requires OnlyFields(fs, G)
    ensures MatchFields(ps, fs).Just? ==> OnlyAll(MatchFields(ps, fs).value, G)
  {
    hide Only;
    if ps != [] {
      if Get(fs, ps[0].lbl).Just? {
        GetSome(fs, ps[0].lbl);
        assert ps[0].pat < ps[0];
        MatchOnly(ps[0].pat, Get(fs, ps[0].lbl).value, G);
      }
      MatchFieldsOnly(ps[1..], fs, G);
    }
  }

  ghost predicate OnlyNext(next: Next, G: Keys) {
    match next
    case Done(v) => Only(v, G)
    case Go(b, us) => Only(b, G) && OnlyAll(us, G)
    case Stuck => true
  }

  lemma PrimOnly(w: World, op: Op, vs: seq<Term>, G: Keys)
    requires op.OPrim? && OnlyAll(vs, G)
    ensures OnlyNext(PrimResult(w, op, vs), G)
  {
    hide Only;
    if Deferred(op, |vs|) {
      ArgsOnly(op, vs, G);
    } else if PrimResult(w, op, vs).Done? {
      GroundOnly(PrimResult(w, op, vs).v, G);
    }
  }

  lemma ApplyOnly(w: World, f: Term, a: Term, G: Keys)
    requires Only(f, G) && Only(a, G)
    ensures OnlyNext(ApplyStep(w, f, a), G)
  {
    hide Only;
    if f.Node? {
      BodiesOnly(f, G);
      var vs := Bodies(f.kids);
      if |f.kids| == 1 { assert vs[0] == f.kids[0].body; }
      if f.op.OCon? { ArgsOnly(f.op, vs + [a], G); }
      if f.op.OPrim? { PrimOnly(w, f.op, vs + [a], G); }
    }
  }

  lemma CaseOnly(ps: seq<Shape>, v: Term, alts: seq<Kid>, G: Keys)
    requires Only(v, G) && OnlyKids(alts, G)
    ensures OnlyNext(CaseStep(ps, v, alts), G)
  {
    hide Only;
    var c := FirstMatch(ps, v, 0);
    if c.Choice? { MatchOnly(ps[c.index], v, G); }
  }

  lemma FinishOnly(w: World, op: Op, vs: seq<Term>, rest: seq<Kid>, G: Keys)
    requires OnlyAll(vs, G) && OnlyKids(rest, G)
    ensures OnlyNext(Finish(w, op, vs, rest), G)
  {
    hide Only, Put;
    NodeOnly(op, rest, G);
    match op
    case OApp => if |vs| == 2 { ApplyOnly(w, vs[0], vs[1], G); }
    case OCon(_, _) => ArgsOnly(op, vs, G);
    case OVariant(_) => ArgsOnly(op, vs, G);
    case OPrim(_, _, _) => PrimOnly(w, op, vs, G);
    case OCase(ps) => if |vs| == 1 { CaseOnly(ps, vs[0], rest, G); }
    case OMerge(_, _) => ArgsOnly(ORecord(["_1", "_2"]), vs, G);
    case OForce => if |vs| == 1 && vs[0].Node? && |vs[0].kids| == 1 { BodiesOnly(vs[0], G); assert Bodies(vs[0].kids)[0] == vs[0].kids[0].body; }
    case ORecord(_) => RecordStepOnly(w, op, vs, rest, G);
    case OProj(_) => RecordStepOnly(w, op, vs, rest, G);
    case OUpdate(_) => RecordStepOnly(w, op, vs, rest, G);
    case _ =>
  }

  lemma NodeOnly(op: Op, kids: seq<Kid>, G: Keys)
    requires OnlyKids(kids, G)
    ensures Only(Node(op, kids), G)
  {
  }

  lemma RecordStepOnly(w: World, op: Op, vs: seq<Term>, rest: seq<Kid>, G: Keys)
    requires (op.ORecord? || op.OProj? || op.OUpdate?) && OnlyAll(vs, G)
    ensures OnlyNext(Finish(w, op, vs, rest), G)
  {
    hide Only, Put;
    if op.ORecord? && |op.labels| == |vs| {
      ZipOnly(op.labels, vs, G);
      PutOnly([], Zip(op.labels, vs), G);
      RecordOnly(Put([], Zip(op.labels, vs)), G);
    } else if |vs| > 0 && vs[0].Node? && vs[0].op.ORecord? && |vs[0].op.labels| == |vs[0].kids| {
      var fs := FieldsOf(vs[0]);
      FieldsOnly(vs[0], G);
      if op.OProj? && Get(fs, op.lbl).Just? { GetSome(fs, op.lbl); }
      if op.OUpdate? && |vs| == 1 + |op.labels| {
        ZipOnly(op.labels, vs[1..], G);
        PutOnly(fs, Zip(op.labels, vs[1..]), G);
        RecordOnly(Put(fs, Zip(op.labels, vs[1..])), G);
      }
    }
  }

  /** Of the globals in `G`, `w'` has those that `w` has, and what they hold
      mentions `G` only. */
  ghost predicate Shares(w: World, w': World, G: Keys) {
    w'.delta == w.delta && forall g :: g in w.globals && G(g) ==>
      g in w'.globals && w'.globals[g] == w.globals[g] && Only(w.globals[g], G)
  }

  lemma SharedFinish(w: World, w': World, G: Keys, op: Op, vs: seq<Term>, rest: seq<Kid>)
    requires Shares(w, w', G)
    ensures Finish(w', op, vs, rest) == Finish(w, op, vs, rest)
  {
  }

  /** Evaluation depends on no other globals. */
  lemma {:induction false} EvOnly(w: World, w': World, G: Keys, n: nat, t: Term)
    requires Shares(w, w', G) && Only(t, G) && Ev(w, n, t).Just?
    ensures Ev(w', n, t) == Ev(w, n, t) && Only(Ev(w, n, t).value, G)
    decreases n, 1, t
  {
    hide Shares, Finish, Run;
    if t.Node? {
      var k := Strict(t.op, |t.kids|);
      EvAllOnly(w, w', G, n, t.kids, k);
      var vs := EvAll(w, n, t.kids, k).value;
      var next := Finish(w, t.op, vs, t.kids[k..]);
      SharedFinish(w, w', G, t.op, vs, t.kids[k..]);
      FinishOnly(w, t.op, vs, t.kids[k..], G);
      RunOnly(w, w', G, n, next);
    } else {
      FreeOnly(w, w', G, n, t);
    }
  }

  lemma FreeOnly(w: World, w': World, G: Keys, n: nat, t: Term)
    requires !t.Node? && Shares(w, w', G) && Only(t, G) && Ev(w, n, t).Just?
    ensures Ev(w', n, t) == Ev(w, n, t) && Only(Ev(w, n, t).value, G)
  {
  }

  lemma {:induction false} EvAllOnly(w: World, w': World, G: Keys, n: nat, kids: seq<Kid>, k: nat)
    requires Shares(w, w', G) && OnlyKids(kids, G) && k <= |kids| && EvAll(w, n, kids, k).Just?
    ensures EvAll(w', n, kids, k) == EvAll(w, n, kids, k) && OnlyAll(EvAll(w, n, kids, k).value, G)
    decreases n, 1, kids, k
  {
    hide Shares, Only, Ev;
    if k > 0 {
      assert kids[k - 1].body < kids[k - 1];
      EvAllOnly(w, w', G, n, kids, k - 1);
      EvOnly(w, w', G, n, kids[k - 1].body);
    }
  }

  lemma {:induction false} RunOnly(w: World, w': World, G: Keys, n: nat, next: Next)
    requires Shares(w, w', G) && OnlyNext(next, G) && Run(w, n, next).Just?
    ensures Run(w', n, next) == Run(w, n, next) && Only(Run(w, n, next).value, G)
    decreases n, 0
  {
    hide Shares, Only, Ev;
    if next.Go? {
      InstOnly(next.body, next.args, 0, G);
      EvOnly(w, w', G, n - 1, Instantiate(next.body, next.args));
    }
  }

  // ---- Contractions ----

  lemma GetOnly(s: Term, l: string, G: Keys)
    requires IsLiteralRecord(s) && Only(s, G) && Get(FieldsOf(s), l).Just?
    ensures Only(Get(FieldsOf(s), l).value, G)
  {
    hide Only;
    FieldsOnly(s, G);
    GetSome(FieldsOf(s), l);
  }

  lemma ProjOnly(s: Term, l: string, G: Keys)
    requires Only(s, G)
    ensures Only(ProjOf(s, l), G)
  {
  }

  lemma {:induction false} CollectsOnly(p: Shape, s: Term, cs: seq<Term>, G: Keys)
    requires Collects(p, s, cs) && Only(s, G)
    ensures OnlyAll(cs, G)
  {
    hide Only;
    match p
    case SVar =>
    case SWild =>
    case SLit(_) =>
    case SCon(_, _, args) =>
      BodiesOnly(s, G);
      CollectsAllOnly(args, Bodies(s.kids), cs, G);
    case SRecord(fs) => CollectsFieldsOnly(fs, s, cs, G);
    case SLabel(_, _) =>
  }

  lemma OnlyJoin(cs: seq<Term>, k: nat, G: Keys)
    requires k <= |cs| && OnlyAll(cs[..k], G) && OnlyAll(cs[k..], G)
    ensures OnlyAll(cs, G)
  {
    hide Only;
    forall i | 0 <= i < |cs| ensures Only(cs[i], G) {
      if i < k { assert cs[i] == cs[..k][i]; } else { assert cs[i] == cs[k..][i - k]; }
    }
  }

  lemma {:induction false} CollectsAllOnly(ps: seq<Shape>, ss: seq<Term>, cs: seq<Term>, G: Keys)
    requires |ps| == |ss| && CollectsAll(ps, ss, cs) && OnlyAll(ss, G)
    ensures OnlyAll(cs, G)
  {
    hide Only;
    if ps != [] {
      var k := Width(ps[0]);
      CollectsOnly(ps[0], ss[0], cs[..k], G);
      CollectsAllOnly(ps[1..], ss[1..], cs[k..], G);
      OnlyJoin(cs, k, G);
    }
  }

  lemma {:induction false} CollectsFieldsOnly(ps: seq<SField>, s: Term, cs: seq<Term>, G: Keys)
    requires CollectsFields(ps, s, cs) && Only(s, G)
    ensures OnlyAll(cs, G)
  {
    hide Only;
    if ps != [] {
      assert ps[0].pat < ps[0];
      var k, l := Width(ps[0].pat), ps[0].lbl;
      if Collects(ps[0].pat, ProjOf(s, l), cs[..k]) {
        ProjOnly(s, l, G);
        CollectsOnly(ps[0].pat, ProjOf(s, l), cs[..k], G);
      } else {
        GetOnly(s, l, G);
        CollectsOnly(ps[0].pat, Get(FieldsOf(s), l).value, cs[..k], G);
      }
      CollectsFieldsOnly(ps[1..], s, cs[k..], G);
      OnlyJoin(cs, k, G);
    }
  }

  lemma KidOnly(t: Term, i: nat, G: Keys)
    requires t.Node? && Only(t, G) && i < |t.kids|
    ensures Only(t.kids[i].body, G)
  {
    assert OnlyKids(t.kids, G);
  }

  lemma SubstitutiveOnly(u: Term, t: Term, G: Keys)
    requires Substitutive(u, t) && Only(u, G)
    ensures Only(t, G)
  {
    hide Only, Act, Collects, Picks;
    KidOnly(u, 0, G);
    var c := u.kids[0].body;
    if Beta(u, t) {
      KidOnly(u, 1, G);
      KidOnly(c, 0, G);
      InstOnly(c.kids[0].body, [u.kids[1].body], 0, G);
    } else if BindPure(u, t) {
      KidOnly(u, 1, G);
      KidOnly(c, 0, G);
      InstOnly(u.kids[1].body, [c.kids[0].body], 0, G);
    } else {
      var i: nat, cs :| KnownCaseAt(u, t, i, cs);
      CollectsOnly(u.op.pats[i], c, cs, G);
      KidOnly(u, i + 1, G);
      InstOnly(u.kids[i + 1].body, Rev(cs), 0, G);
    }
  }

  lemma {:induction false} UnshadowedOnly(us: seq<Fd<Term>>, ls: seq<string>, G: Keys)
    requires OnlyFields(us, G)
    ensures OnlyFields(Unshadowed(us, ls), G)
  {
    hide Only;
    if us != [] { UnshadowedOnly(us[1..], ls, G); }
  }

  lemma UpdatesOnly(u: Term, G: Keys)
    requires IsUpdate(u) && Only(u, G)
    ensures Only(u.kids[0].body, G) && OnlyFields(UpdatesOf(u), G)
  {
    KidOnly(u, 0, G);
    var us := UpdatesOf(u);
    forall i | 0 <= i < |us| ensures Only(us[i].val, G) {
      KidOnly(u, i + 1, G);
      assert us[i].val == u.kids[i + 1].body;
    }
  }

  lemma UpdateNodeOnly(r: Term, fs: seq<Fd<Term>>, G: Keys)
    requires Only(r, G) && OnlyFields(fs, G)
    ensures Only(UpdateNode(r, fs), G)
  {
    var kids := [Kid(0, r)] + Args(ValuesOf(fs));
    forall i | 0 <= i < |kids| ensures Only(kids[i].body, G) {
      if i > 0 { assert kids[i].body == fs[i - 1].val; }
    }
  }

  lemma PushedOnly(u: Term, t: Term, G: Keys)
    requires CommuteCase(u, t) && Only(u, G)
    ensures Only(t, G)
  {
    hide Only;
    var c := u.kids[0].body;
    var alts, rest := c.kids[1..], u.kids[1..];
    KidOnly(u, 0, G);
    forall i | 0 <= i < |t.kids| ensures Only(t.kids[i].body, G) {
      KidOnly(c, i, G);
      if i > 0 {
        assert t.kids[i] == Pushed(u.op, alts, rest)[i - 1] && alts[i - 1] == c.kids[i];
        FrameOnly(u, alts[i - 1], G);
      }
    }
    NodeOnly(t.op, t.kids, G);
  }

  lemma FrameOnly(u: Term, alt: Kid, G: Keys)
    requires u.Node? && |u.kids| > 0 && Only(u, G) && Only(alt.body, G)
    ensures Only(Node(u.op, [Kid(0, alt.body)] + ShiftKids(u.kids[1..], alt.binds, 0)), G)
  {
    hide Only;
    var rest := u.kids[1..];
    var kids := [Kid(0, alt.body)] + ShiftKids(rest, alt.binds, 0);
    forall i | 0 <= i < |kids| ensures Only(kids[i].body, G) {
      if i > 0 {
        KidOnly(u, i, G);
        assert rest[i - 1] == u.kids[i];
        ShiftOnly(rest[i - 1].body, alt.binds, 0 + rest[i - 1].binds, G);
      }
    }
    NodeOnly(u.op, kids, G);
  }

  lemma ExactOnly(u: Term, t: Term, G: Keys)
    requires Exact(u, t) && Only(u, G)
    ensures Only(t, G)
  {
    hide Only, CommuteCase;
    if CommuteCase(u, t) {
      PushedOnly(u, t, G);
    } else {
      KidOnly(u, 0, G);
      var c := u.kids[0].body;
      if ForceThunk(u, t) {
        KidOnly(c, 0, G);
      } else if ProjKnown(u, t) {
        GetOnly(c, u.op.lbl, G);
      } else if UpdateChain(u, t) {
        UpdatesOnly(u, G);
        UpdatesOnly(c, G);
        UnshadowedOnly(UpdatesOf(c), u.op.labels, G);
        UpdateNodeOnly(c.kids[0].body, Unshadowed(UpdatesOf(c), u.op.labels) + UpdatesOf(u), G);
      } else {
        forall i | 0 <= i < |t.kids| ensures Only(t.kids[i].body, G) {
          if i < |c.kids| { KidOnly(c, i, G); } else { KidOnly(u, 1, G); }
        }
        NodeOnly(t.op, t.kids, G);
      }
    }
  }

  /** A contraction mentions nothing new. */
  lemma ContractsOnly(u: Term, t: Term, G: Keys)
    requires Contracts(u, t) && Only(u, G)
    ensures Only(t, G)
  {
    hide Only, Substitutive, Exact;
    if Substitutive(u, t) { SubstitutiveOnly(u, t, G); } else { ExactOnly(u, t, G); }
  }
}
