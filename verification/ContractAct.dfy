/**
  Contractions are stable under substitution.
 */
module ContractAct {
  import opened CoreIR
  import opened Nameless
  import opened Records
  import opened Eval
  import opened Contract

  /** What substitution does to a node and its children. */
  lemma ActView(t: Term, s: Sub, c: nat)
    requires t.Node?
    ensures var t' := Act(t, s, c);
      && t'.Node? && t'.op == t.op && |t'.kids| == |t.kids|
      && forall i :: 0 <= i < |t.kids| ==> t'.kids[i] == Kid(t.kids[i].binds, Act(t.kids[i].body, s, c + t.kids[i].binds))
  {
  }

  lemma ActNode(op: Op, kids: seq<Kid>, s: Sub, c: nat)
    ensures Act(Node(op, kids), s, c) == Node(op, ActKids(kids, s, c))
  {
  }

  lemma ActKidsConcat(a: seq<Kid>, b: seq<Kid>, s: Sub, c: nat)
    ensures ActKids(a + b, s, c) == ActKids(a, s, c) + ActKids(b, s, c)
  {
  }

  lemma ArgsAct(vs: seq<Term>, s: Sub, c: nat)
    ensures ActKids(Args(vs), s, c) == Args(ActAll(vs, s, c))
  {
    forall i | 0 <= i < |vs| ensures ActKids(Args(vs), s, c)[i] == Kid(0, Act(vs[i], s, c)) { assert c + 0 == c; }
  }

  lemma BodiesAct(kids: seq<Kid>, s: Sub, c: nat)
    requires AllPlain(kids)
    ensures AllPlain(ActKids(kids, s, c)) && Bodies(ActKids(kids, s, c)) == ActAll(Bodies(kids), s, c)
  {
    var kids' := ActKids(kids, s, c);
    forall i | 0 <= i < |kids| ensures kids'[i] == Kid(0, Act(kids[i].body, s, c)) {
      assert kids[i].binds == 0 && c + 0 == c;
    }
  }

  ghost predicate ActFields(s: Sub, c: nat, a: seq<Fd<Term>>, b: seq<Fd<Term>>) {
    Related((x, y) => y == Act(x, s, c), a, b)
  }

  lemma FieldsAct(t: Term, s: Sub, c: nat)
    requires IsLiteralRecord(t)
    ensures IsLiteralRecord(Act(t, s, c)) && ActFields(s, c, FieldsOf(t), FieldsOf(Act(t, s, c)))
  {
    BodiesAct(t.kids, s, c);
  }

  lemma GetAct(t: Term, s: Sub, c: nat, l: string)
    requires IsLiteralRecord(t)
    ensures IsLiteralRecord(Act(t, s, c))
    ensures var g, g' := Get(FieldsOf(t), l), Get(FieldsOf(Act(t, s, c)), l);
      (g.Just? <==> g'.Just?) && (g.Just? ==> g'.value == Act(g.value, s, c))
  {
    FieldsAct(t, s, c);
    GetRelated((x, y) => y == Act(x, s, c), FieldsOf(t), FieldsOf(Act(t, s, c)), l);
  }

  lemma ProjAct(t: Term, l: string, s: Sub, c: nat)
    ensures Act(ProjOf(t, l), s, c) == ProjOf(Act(t, s, c), l)
  {
    assert ActKids([Kid(0, t)], s, c) == [Kid(0, Act(t, s, c))];
  }

  lemma ActAllSlices(cs: seq<Term>, s: Sub, c: nat, k: nat)
    requires k <= |cs|
    ensures ActAll(cs, s, c)[..k] == ActAll(cs[..k], s, c)
    ensures ActAll(cs, s, c)[k..] == ActAll(cs[k..], s, c)
  {
  }

  lemma LitAct(l: Literal, s: Sub, c: nat)
    ensures Act(Node(OLit(l), []), s, c) == Node(OLit(l), [])
  {
  }

  lemma {:induction false} CollectsAct(p: Shape, t: Term, cs: seq<Term>, s: Sub, c: nat)
    requires Collects(p, t, cs)
    ensures Collects(p, Act(t, s, c), ActAll(cs, s, c))
  {
    match p
    case SVar => assert ActAll([t], s, c) == [Act(t, s, c)];
    case SWild =>
    case SLit(l) => LitAct(l, s, c);
    case SCon(_, _, args) =>
      BodiesAct(t.kids, s, c);
      CollectsAllAct(args, Bodies(t.kids), cs, s, c);
    case SRecord(fs) => CollectsFieldsAct(fs, t, cs, s, c);
    case SLabel(_, _) =>
  }

  lemma {:induction false} CollectsAllAct(ps: seq<Shape>, ts: seq<Term>, cs: seq<Term>, s: Sub, c: nat)
    requires |ps| == |ts| && CollectsAll(ps, ts, cs)
    ensures CollectsAll(ps, ActAll(ts, s, c), ActAll(cs, s, c))
  {
    if ps != [] {
      var k := Width(ps[0]);
      CollectsAct(ps[0], ts[0], cs[..k], s, c);
      CollectsAllAct(ps[1..], ts[1..], cs[k..], s, c);
      ActAllSlices(cs, s, c, k);
      ActAllSlices(ts, s, c, 1);
    }
  }

  lemma {:induction false} CollectsFieldsAct(ps: seq<SField>, t: Term, cs: seq<Term>, s: Sub, c: nat)
    requires CollectsFields(ps, t, cs)
    ensures CollectsFields(ps, Act(t, s, c), ActAll(cs, s, c))
  {
    if ps != [] {
      assert ps[0].pat < ps[0];
      var k, l := Width(ps[0].pat), ps[0].lbl;
      ActAllSlices(cs, s, c, k);
      CollectsFieldsAct(ps[1..], t, cs[k..], s, c);
      if Collects(ps[0].pat, ProjOf(t, l), cs[..k]) {
        CollectsAct(ps[0].pat, ProjOf(t, l), cs[..k], s, c);
        ProjAct(t, l, s, c);
      } else {
        CollectsAct(ps[0].pat, Get(FieldsOf(t), l).value, cs[..k], s, c);
        GetAct(t, s, c, l);
      }
    }
  }

  lemma {:induction false} CertainAct(p: Shape, t: Term, s: Sub, c: nat)
    requires Certain(p, t)
    ensures Certain(p, Act(t, s, c))
  {
    match p
    case SVar =>
    case SWild =>
    case SLit(l) => LitAct(l, s, c);
    case SCon(_, _, args) =>
      BodiesAct(t.kids, s, c);
      forall i | 0 <= i < |args| ensures Certain(args[i], Act(t, s, c).kids[i].body) {
        CertainAct(args[i], t.kids[i].body, s, c);
        assert Bodies(Act(t, s, c).kids)[i] == Act(Bodies(t.kids)[i], s, c);
      }
    case SRecord(fs) =>
      FieldsAct(t, s, c);
      forall i | 0 <= i < |fs|
        ensures Get(FieldsOf(Act(t, s, c)), fs[i].lbl).Just?
        ensures Certain(fs[i].pat, Get(FieldsOf(Act(t, s, c)), fs[i].lbl).value)
      {
        assert fs[i].pat < fs[i];
        GetAct(t, s, c, fs[i].lbl);
        CertainAct(fs[i].pat, Get(FieldsOf(t), fs[i].lbl).value, s, c);
      }
    case SLabel(_, _) =>
  }

  lemma MissesAct(p: Shape, t: Term, s: Sub, c: nat)
    requires Misses(p, t)
    ensures Misses(p, Act(t, s, c))
  {
    if t.op.OCon? { BodiesAct(t.kids, s, c); }
  }

  lemma PicksAct(ps: seq<Shape>, t: Term, i: nat, s: Sub, c: nat)
    requires i < |ps| && Picks(ps, t, i)
    ensures Picks(ps, Act(t, s, c), i)
  {
    forall j | 0 <= j < |ps| && Misses(ps[j], t) ensures Misses(ps[j], Act(t, s, c)) { MissesAct(ps[j], t, s, c); }
    if Certain(ps[i], t) { CertainAct(ps[i], t, s, c); }
  }

  // ---- Contraction by contraction ----

  lemma BetaAct(u: Term, t: Term, s: Sub, c: nat)
    requires Beta(u, t)
    ensures Beta(Act(u, s, c), Act(t, s, c))
  {
    var f, a := u.kids[0].body, u.kids[1].body;
    ActView(u, s, c);
    ActView(f, s, c);
    assert c + 0 == c;
    ActInst(f.kids[0].body, [a], s, c, 0);
    assert ActAll([a], s, c) == [Act(a, s, c)];
  }

  lemma BindPureAct(u: Term, t: Term, s: Sub, c: nat)
    requires BindPure(u, t)
    ensures BindPure(Act(u, s, c), Act(t, s, c))
  {
    var e := u.kids[0].body.kids[0].body;
    ActView(u, s, c);
    ActView(u.kids[0].body, s, c);
    ActInst(u.kids[1].body, [e], s, c, 0);
    assert ActAll([e], s, c) == [Act(e, s, c)];
    assert c + 0 == c;
  }

  lemma KnownCaseAct(u: Term, t: Term, i: nat, cs: seq<Term>, s: Sub, c: nat)
    requires KnownCaseAt(u, t, i, cs)
    ensures KnownCaseAt(Act(u, s, c), Act(t, s, c), i, ActAll(cs, s, c))
  {
    hide Act, Collects, Picks;
    ActView(u, s, c);
    CollectsAct(u.op.pats[i], u.kids[0].body, cs, s, c);
    PicksAct(u.op.pats, u.kids[0].body, i, s, c);
    ActInst(u.kids[i + 1].body, Rev(cs), s, c, 0);
    assert ActAll(Rev(cs), s, c) == Rev(ActAll(cs, s, c));
    assert c + 0 == c;
  }

  lemma ProjKnownAct(u: Term, t: Term, s: Sub, c: nat)
    requires ProjKnown(u, t)
    ensures ProjKnown(Act(u, s, c), Act(t, s, c))
  {
    GetAct(u.kids[0].body, s, c, u.op.lbl);
    assert c + 0 == c;
  }

  lemma UpdatesAct(u: Term, s: Sub, c: nat)
    requires IsUpdate(u)
    ensures IsUpdate(Act(u, s, c)) && Act(u, s, c).kids[0].body == Act(u.kids[0].body, s, c)
    ensures ActFields(s, c, UpdatesOf(u), UpdatesOf(Act(u, s, c)))
  {
    hide Act, ActKids;
    var u', rest := Act(u, s, c), u.kids[1..];
    ActNode(u.op, u.kids, s, c);
    assert u.kids == [u.kids[0]] + rest;
    ActKidsConcat([u.kids[0]], rest, s, c);
    OneKidAct(u.kids[0], s, c);
    BodiesAct(rest, s, c);
    CountKids(rest, s, c);
    assert u'.kids[1..] == ActKids(rest, s, c);
    assert c + 0 == c;
  }

  lemma UpdateNodeAct(r: Term, us: seq<Fd<Term>>, vs: seq<Fd<Term>>, s: Sub, c: nat)
    requires ActFields(s, c, us, vs)
    ensures Act(UpdateNode(r, us), s, c) == UpdateNode(Act(r, s, c), vs)
  {
    hide Act, ActKids;
    assert LabelsOf(us) == LabelsOf(vs);
    assert ActAll(ValuesOf(us), s, c) == ValuesOf(vs);
    ArgsAct(ValuesOf(us), s, c);
    ArgsAct([r], s, c);
    assert Args([r]) == [Kid(0, r)] && ActAll([r], s, c) == [Act(r, s, c)] && Args([Act(r, s, c)]) == [Kid(0, Act(r, s, c))];
    ActKidsConcat([Kid(0, r)], Args(ValuesOf(us)), s, c);
    ActNode(OUpdate(LabelsOf(us)), [Kid(0, r)] + Args(ValuesOf(us)), s, c);
  }

  lemma UpdateChainAct(u: Term, t: Term, s: Sub, c: nat)
    requires UpdateChain(u, t)
    ensures UpdateChain(Act(u, s, c), Act(t, s, c))
  {
    hide Act;
    var inner := u.kids[0].body;
    UpdatesAct(u, s, c);
    UpdatesAct(inner, s, c);
    ActView(u, s, c);
    var u', inner' := Act(u, s, c), Act(inner, s, c);
    MergedAct(UpdatesOf(inner), UpdatesOf(inner'), UpdatesOf(u), UpdatesOf(u'), u.op.labels, s, c);
    UpdateNodeAct(inner.kids[0].body, Unshadowed(UpdatesOf(inner), u.op.labels) + UpdatesOf(u),
                  Unshadowed(UpdatesOf(inner'), u.op.labels) + UpdatesOf(u'), s, c);
  }

  lemma MergedAct(a: seq<Fd<Term>>, a': seq<Fd<Term>>, b: seq<Fd<Term>>, b': seq<Fd<Term>>, ls: seq<string>, s: Sub, c: nat)
    requires ActFields(s, c, a, a') && ActFields(s, c, b, b')
    ensures ActFields(s, c, Unshadowed(a, ls) + b, Unshadowed(a', ls) + b')
  {
    hide Act;
    UnshadowedRelated((x, y) => y == Act(x, s, c), a, a', ls);
  }

  lemma PrimAbsorbAct(u: Term, t: Term, s: Sub, c: nat)
    requires PrimAbsorb(u, t)
    ensures PrimAbsorb(Act(u, s, c), Act(t, s, c))
  {
    var p := u.kids[0].body;
    BodiesAct(u.kids, s, c);
    BodiesAct(p.kids, s, c);
    assert c + 0 == c;
    assert ActKids(p.kids + [u.kids[1]], s, c) == ActKids(p.kids, s, c) + [ActKids(u.kids, s, c)[1]];
  }

  lemma ShiftKidsAct(rest: seq<Kid>, b: nat, s: Sub, c: nat)
    ensures ActKids(ShiftKids(rest, b, 0), s, c + b) == ShiftKids(ActKids(rest, s, c), b, 0)
  {
    forall i | 0 <= i < |rest|
      ensures Act(Shift(rest[i].body, b, 0 + rest[i].binds), s, c + b + rest[i].binds)
           == Shift(Act(rest[i].body, s, c + rest[i].binds), b, 0 + rest[i].binds)
    {
      ActShift(rest[i].body, s, c + rest[i].binds, b, rest[i].binds);
      assert c + rest[i].binds + b == c + b + rest[i].binds;
    }
  }

  lemma PushedAct(op: Op, alts: seq<Kid>, rest: seq<Kid>, s: Sub, c: nat)
    ensures ActKids(Pushed(op, alts, rest), s, c) == Pushed(op, ActKids(alts, s, c), ActKids(rest, s, c))
  {
    forall i | 0 <= i < |alts|
      ensures Act(Pushed(op, alts, rest)[i].body, s, c + alts[i].binds)
           == Pushed(op, ActKids(alts, s, c), ActKids(rest, s, c))[i].body
    {
      var b := alts[i].binds;
      ShiftKidsAct(rest, b, s, c);
      var kids := [Kid(0, alts[i].body)] + ShiftKids(rest, b, 0);
      assert c + b + 0 == c + b;
      assert ActKids(kids, s, c + b) == [Kid(0, Act(alts[i].body, s, c + b))] + ActKids(ShiftKids(rest, b, 0), s, c + b);
    }
  }

  lemma CommuteCaseAct(u: Term, t: Term, s: Sub, c: nat)
    requires CommuteCase(u, t)
    ensures CommuteCase(Act(u, s, c), Act(t, s, c))
  {
    hide Act, ActKids, Pushed;
    var q := u.kids[0].body;
    assert c + 0 == c;
    var head, alts, rest := [q.kids[0]], q.kids[1..], u.kids[1..];
    ActNode(u.op, u.kids, s, c);
    ActNode(q.op, q.kids, s, c);
    ActNode(q.op, head + Pushed(u.op, alts, rest), s, c);
    assert q.kids == head + alts && u.kids == [u.kids[0]] + rest;
    ActKidsConcat(head, alts, s, c);
    ActKidsConcat([u.kids[0]], rest, s, c);
    ActKidsConcat(head, Pushed(u.op, alts, rest), s, c);
    OneKidAct(q.kids[0], s, c);
    OneKidAct(u.kids[0], s, c);
    PushedAct(u.op, alts, rest, s, c);
    CountKids(alts, s, c);
    assert Act(q, s, c).kids[1..] == ActKids(alts, s, c) && Act(u, s, c).kids[1..] == ActKids(rest, s, c);
  }

  lemma CountKids(kids: seq<Kid>, s: Sub, c: nat)
    ensures |ActKids(kids, s, c)| == |kids|
  {
  }

  lemma OneKidAct(k: Kid, s: Sub, c: nat)
    ensures ActKids([k], s, c) == [Kid(k.binds, Act(k.body, s, c + k.binds))]
  {
  }

  lemma ContractsAct(u: Term, t: Term, s: Sub, c: nat)
    requires Contracts(u, t)
    ensures Contracts(Act(u, s, c), Act(t, s, c))
  {
    hide Beta, BindPure, KnownCaseAt, ForceThunk, ProjKnown, UpdateChain, PrimAbsorb, CommuteCase, Act;
    if Beta(u, t) {
      BetaAct(u, t, s, c);
    } else if BindPure(u, t) {
      BindPureAct(u, t, s, c);
    } else if KnownCase(u, t) {
      var i: nat, cs :| KnownCaseAt(u, t, i, cs);
      KnownCaseAct(u, t, i, cs, s, c);
    } else if ForceThunk(u, t) {
      ForceThunkAct(u, t, s, c);
    } else if ProjKnown(u, t) {
      ProjKnownAct(u, t, s, c);
    } else if UpdateChain(u, t) {
      UpdateChainAct(u, t, s, c);
    } else if PrimAbsorb(u, t) {
      PrimAbsorbAct(u, t, s, c);
    } else {
      CommuteCaseAct(u, t, s, c);
    }
  }

  lemma ForceThunkAct(u: Term, t: Term, s: Sub, c: nat)
    requires ForceThunk(u, t)
    ensures ForceThunk(Act(u, s, c), Act(t, s, c))
  {
    ActView(u, s, c);
    ActView(u.kids[0].body, s, c);
    assert c + 0 == c;
  }
}
