/**
  Contracting a term anywhere, any number of times, keeps every value it
  computes: if the original evaluates, so does the contracted term, and to a
  related value.
 */
module Simulate {
  import opened Nameless
  import opened Records
  import opened Eval
  import opened EvalFacts
  import opened Contract
  import opened ContractEval
  import opened ContractClosed
  import opened Refine

  // ---- Closedness ----

  lemma {:induction false} ParClosed(s: Side, k: nat, t: Term, t': Term, c: nat)
    requires Par(s, k, t, t') && Closed(t, c)
    ensures Closed(t', c)
    decreases k, 0
  {
    hide Closed;
    if Cong(s, k - 1, t, t') {
      CongClosed(s, k - 1, t, t', c);
    } else if Contracted(s, k - 1, t, t') {
      var u :| Cong(s, k - 1, t, u) && Contracts(u, t');
      CongClosed(s, k - 1, t, u, c);
      ContractsClosed(u, t', c);
    } else {
      ClosedMore(t', 0, c);
    }
  }

  lemma {:induction false} CongClosed(s: Side, k: nat, t: Term, t': Term, c: nat)
    requires Cong(s, k, t, t') && Closed(t, c)
    ensures Closed(t', c)
    decreases k, 1
  {
    hide Contracts;
    if t.Node? {
      forall i | 0 <= i < |t.kids| ensures Closed(t'.kids[i].body, c + t'.kids[i].binds) {
        ParClosed(s, k, t.kids[i].body, t'.kids[i].body, c + t.kids[i].binds);
      }
    }
  }

  // ---- Pattern matching ----

  /** Two good values of the same form, with related parts. */
  ghost predicate Alike(s: Side, k: nat, v: Term, v': Term) {
    GoodValue(v) && GoodValue(v') && Cong(s, k, v, v')
  }

  ghost predicate AllAlike(s: Side, k: nat, vs: seq<Term>, vs': seq<Term>) {
    |vs| == |vs'| && forall i :: 0 <= i < |vs| ==> Alike(s, k, vs[i], vs'[i])
  }

  lemma AlikeMono(s: Side, k: nat, m: nat, vs: seq<Term>, vs': seq<Term>)
    requires AllAlike(s, k, vs, vs') && k <= m
    ensures AllAlike(s, m, vs, vs')
  {
    forall i | 0 <= i < |vs| ensures Alike(s, m, vs[i], vs'[i]) { CongMono(s, k, m, vs[i], vs'[i]); }
  }

  lemma AlikePar(s: Side, k: nat, vs: seq<Term>, vs': seq<Term>)
    requires AllAlike(s, k, vs, vs')
    ensures ParAll(s, k + 1, vs, vs')
  {
    forall i | 0 <= i < |vs| ensures Par(s, k + 1, vs[i], vs'[i]) { assert Alike(s, k, vs[i], vs'[i]); }
  }

  /** The parts of alike values are alike. */
  lemma PartsAlike(s: Side, k: nat, v: Term, v': Term)
    requires Alike(s, k, v, v') && (v.op.OCon? || v.op.OVariant? || v.op.OPrim? || v.op.ORecord?)
    ensures |v.kids| == |v'.kids| && v.op == v'.op && AllAlike(s, k, Bodies(v.kids), Bodies(v'.kids))
  {
    assert Cong(s, k, v, v') && CongKids(s, k, v.kids, v'.kids);
    BodiesGood(v);
    BodiesGood(v');
    forall i | 0 <= i < |v.kids| ensures Alike(s, k, Bodies(v.kids)[i], Bodies(v'.kids)[i]) {
      var a, b := v.kids[i].body, v'.kids[i].body;
      assert Bodies(v.kids)[i] == a && Bodies(v'.kids)[i] == b;
      ParVal(s, k, a, b);
      CongMono(s, k - 1, k, a, b);
    }
  }

  ghost predicate FieldsAlike(s: Side, k: nat, fs: seq<Fd<Term>>, fs': seq<Fd<Term>>) {
    Related((x, y) => Alike(s, k, x, y), fs, fs')
  }

  lemma RecordAlike(s: Side, k: nat, v: Term, v': Term)
    requires Alike(s, k, v, v') && v.op.ORecord?
    ensures v'.op.ORecord? && |v.op.labels| == |v.kids| && |v'.op.labels| == |v'.kids|
    ensures FieldsAlike(s, k, FieldsOf(v), FieldsOf(v'))
  {
    hide Alike;
    GoodOf(s, k, v, v');
    FieldsGood(v);
    FieldsGood(v');
    PartsAlike(s, k, v, v');
  }

  lemma GoodOf(s: Side, k: nat, v: Term, v': Term)
    requires Alike(s, k, v, v')
    ensures v.Node? && v'.Node? && v'.op == v.op && CongKids(s, k, v.kids, v'.kids)
    ensures GoodValue(v) && GoodValue(v') && Cong(s, k, v, v')
  {
  }

  ghost predicate SameMatch(s: Side, k: nat, r: Maybe<seq<Term>>, r': Maybe<seq<Term>>) {
    match r
    case Nothing => r' == Nothing
    case Just(us) => r'.Just? && AllAlike(s, k, us, r'.value)
  }

  lemma JoinSame(s: Side, k: nat, a: Maybe<seq<Term>>, a': Maybe<seq<Term>>, b: Maybe<seq<Term>>, b': Maybe<seq<Term>>)
    requires SameMatch(s, k, a, a') && SameMatch(s, k, b, b')
    ensures SameMatch(s, k, Join(a, b), Join(a', b'))
  {
  }

  /** Alike values match the same patterns, binding alike values. */
  lemma {:induction false} MatchSim(s: Side, k: nat, p: Shape, v: Term, v': Term)
    requires Alike(s, k, v, v')
    ensures SameMatch(s, k, Match(p, v), Match(p, v'))
  {
    match p
    case SVar =>
    case SWild =>
    case SLit(l) =>
    case SCon(c, _, args) =>
      if v.op.OCon? {
        PartsAlike(s, k, v, v');
        if |v.kids| == |args| { MatchAllSim(s, k, args, Bodies(v.kids), Bodies(v'.kids)); }
      }
    case SRecord(fs) =>
      if v.op.ORecord? {
        RecordAlike(s, k, v, v');
        MatchFieldsSim(s, k, fs, FieldsOf(v), FieldsOf(v'));
      }
    case SLabel(_, _) => if v.op.OVariant? {
      PartsAlike(s, k, v, v');
      assert |v.kids| == 1 ==> Bodies(v.kids)[0] == v.kids[0].body && Bodies(v'.kids)[0] == v'.kids[0].body;
    }
  }

  lemma {:induction false} MatchAllSim(s: Side, k: nat, ps: seq<Shape>, vs: seq<Term>, vs': seq<Term>)
    requires |ps| == |vs| && AllAlike(s, k, vs, vs')
    ensures SameMatch(s, k, MatchAll(ps, vs), MatchAll(ps, vs'))
  {
    hide Alike, Join;
    if ps != [] {
      MatchSim(s, k, ps[0], vs[0], vs'[0]);
      MatchAllSim(s, k, ps[1..], vs[1..], vs'[1..]);
      JoinSame(s, k, Match(ps[0], vs[0]), Match(ps[0], vs'[0]), MatchAll(ps[1..], vs[1..]), MatchAll(ps[1..], vs'[1..]));
    }
  }

  lemma {:induction false} MatchFieldsSim(s: Side, k: nat, ps: seq<SField>, fs: seq<Fd<Term>>, fs': seq<Fd<Term>>)
    requires FieldsAlike(s, k, fs, fs')
    ensures SameMatch(s, k, MatchFields(ps, fs), MatchFields(ps, fs'))
  {
    hide Alike, Join;
    if ps != [] {
      var l := ps[0].lbl;
      GetRelated((x, y) => Alike(s, k, x, y), fs, fs', l);
      MatchFieldsSim(s, k, ps[1..], fs, fs');
      if Get(fs, l).Just? {
        assert ps[0].pat < ps[0];
        var x, x' := Get(fs, l).value, Get(fs', l).value;
        MatchSim(s, k, ps[0].pat, x, x');
        JoinSame(s, k, Match(ps[0].pat, x), Match(ps[0].pat, x'), MatchFields(ps[1..], fs), MatchFields(ps[1..], fs'));
      }
    }
  }

  lemma {:induction false} FirstMatchSim(s: Side, k: nat, ps: seq<Shape>, v: Term, v': Term, from: nat)
    requires from <= |ps| && Alike(s, k, v, v')
    ensures var c, c' := FirstMatch(ps, v, from), FirstMatch(ps, v', from);
      (c.Choice? <==> c'.Choice?) && (c.Choice? ==> c.index == c'.index && AllAlike(s, k, c.bound, c'.bound))
    decreases |ps| - from
  {
    hide Alike, Match;
    if from < |ps| {
      MatchSim(s, k, ps[from], v, v');
      FirstMatchSim(s, k, ps, v, v', from + 1);
    }
  }

  // ---- One step ----

  ghost predicate SameNext(s: Side, k: nat, a: Next, b: Next) {
    match a
    case Done(v) => b.Done? && Cong(s, k, v, b.v)
    case Go(t, us) => b.Go? && Par(s, k, t, b.body) && ParAll(s, k, us, b.args)
    case Stuck => true
  }

  lemma {:induction false} AllGroundSame(s: Side, k: nat, vs: seq<Term>, vs': seq<Term>)
    requires AllAlike(s, k, vs, vs') && AllGround(vs)
    ensures vs == vs'
  {
    forall i | 0 <= i < |vs| ensures vs[i] == vs'[i] {
      assert Alike(s, k, vs[i], vs'[i]);
      GroundSame(s, k, vs[i], vs'[i]);
    }
  }

  lemma ArgsAlike(s: Side, k: nat, op: Op, vs: seq<Term>, vs': seq<Term>)
    requires AllAlike(s, k, vs, vs')
    ensures Cong(s, k + 1, Node(op, Args(vs)), Node(op, Args(vs')))
  {
    AlikePar(s, k, vs, vs');
    ParArgs(s, k + 1, op, vs, vs');
  }

  lemma PrimSim(s: Side, k: nat, op: Op, vs: seq<Term>, vs': seq<Term>) returns (j: nat)
    requires op.OPrim? && AllAlike(s, k, vs, vs')
    ensures SameNext(s, j, PrimResult(s.right, op, vs), PrimResult(s.right, op, vs'))
  {
    hide Cong, Alike;
    j := k + 1;
    if Deferred(op, |vs|) {
      ArgsAlike(s, k, op, vs, vs');
    } else if AllGround(vs) {
      AllGroundSame(s, k, vs, vs');
      if PrimResult(s.right, op, vs).Done? { j := CongRefl(s, PrimResult(s.right, op, vs).v); }
    }
  }

  /** Alike values with one body: the bodies are related. */
  lemma BodyAlike(s: Side, k: nat, v: Term, v': Term)
    requires Cong(s, k, v, v') && v.Node? && |v.kids| == 1
    ensures v'.Node? && v'.op == v.op && |v'.kids| == 1 && v'.kids[0].binds == v.kids[0].binds
    ensures Par(s, k, v.kids[0].body, v'.kids[0].body)
  {
    assert CongKids(s, k, v.kids, v'.kids);
  }

  lemma ApplySim(s: Side, k: nat, f: Term, f': Term, a: Term, a': Term) returns (j: nat)
    requires Alike(s, k, f, f') && Alike(s, k, a, a')
    ensures SameNext(s, j, ApplyStep(s.right, f, a), ApplyStep(s.right, f', a'))
  {
    hide Par, Cong, IsValue, Closed;
    GoodOf(s, k, f, f');
    if f.op.OCon? || f.op.OPrim? {
      PartsAlike(s, k, f, f');
      var us, us' := Bodies(f.kids) + [a], Bodies(f'.kids) + [a'];
      assert AllAlike(s, k, us, us');
      if f.op.OPrim? {
        j := PrimSim(s, k, f.op, us, us');
      } else {
        ArgsAlike(s, k, f.op, us, us');
        j := k + 1;
      }
    } else {
      j := k + 1;
      if (f.op.OLam? || f.op.OThunk?) && |f.kids| == 1 {
        BodyAlike(s, k, f, f');
        ParMono(s, k, k + 1, f.kids[0].body, f'.kids[0].body);
        AlikePar(s, k, [a], [a']);
      }
    }
  }

  lemma CaseSim(s: Side, k: nat, ps: seq<Shape>, v: Term, v': Term, alts: seq<Kid>, alts': seq<Kid>)
    requires Alike(s, k, v, v') && CongKids(s, k, alts, alts')
    ensures SameNext(s, k + 1, CaseStep(ps, v, alts), CaseStep(ps, v', alts'))
  {
    hide Alike, Par;
    FirstMatchSim(s, k, ps, v, v', 0);
    var c, c' := FirstMatch(ps, v, 0), FirstMatch(ps, v', 0);
    if c.Choice? && |alts| == |ps| {
      ParMono(s, k, k + 1, alts[c.index].body, alts'[c.index].body);
      AlikePar(s, k, Rev(c.bound), Rev(c'.bound));
    }
  }

  lemma ZipAlike(s: Side, k: nat, ls: seq<string>, vs: seq<Term>, vs': seq<Term>)
    requires |ls| == |vs| && AllAlike(s, k, vs, vs')
    ensures FieldsAlike(s, k, Zip(ls, vs), Zip(ls, vs'))
  {
    hide Alike;
    forall i | 0 <= i < |ls| ensures Zip(ls, vs)[i].lbl == ls[i] && Zip(ls, vs)[i].val == vs[i] {}
  }

  lemma RecordOfAlike(s: Side, k: nat, fs: seq<Fd<Term>>, fs': seq<Fd<Term>>)
    requires FieldsAlike(s, k, fs, fs')
    ensures Cong(s, k + 1, RecordOf(fs), RecordOf(fs'))
  {
    hide Alike, Cong;
    assert LabelsOf(fs) == LabelsOf(fs');
    ArgsAlike(s, k, ORecord(LabelsOf(fs)), ValuesOf(fs), ValuesOf(fs'));
  }

  lemma PutAlike(s: Side, k: nat, a: seq<Fd<Term>>, b: seq<Fd<Term>>, us: seq<Fd<Term>>, vs: seq<Fd<Term>>)
    requires FieldsAlike(s, k, a, b) && FieldsAlike(s, k, us, vs)
    ensures Cong(s, k + 1, RecordOf(Put(a, us)), RecordOf(Put(b, vs)))
  {
    hide Alike, Cong;
    PutRelated((x, y) => Alike(s, k, x, y), a, b, us, vs);
    RecordOfAlike(s, k, Put(a, us), Put(b, vs));
  }

  /** The record operations act alike on alike values. */
  lemma RecordSim(s: Side, k: nat, op: Op, vs: seq<Term>, vs': seq<Term>, rest: seq<Kid>, rest': seq<Kid>)
    requires op.ORecord? || op.OProj? || op.OUpdate?
    requires AllAlike(s, k, vs, vs')
    ensures SameNext(s, k + 1, Finish(s.right, op, vs, rest), Finish(s.right, op, vs', rest'))
  {
    hide Alike, Cong, Put;
    match op
    case ORecord(ls) =>
      if |ls| == |vs| {
        ZipAlike(s, k, ls, vs, vs');
        PutAlike(s, k, [], [], Zip(ls, vs), Zip(ls, vs'));
      }
    case OProj(l) =>
      if |vs| == 1 {
        assert Alike(s, k, vs[0], vs'[0]);
        GoodOf(s, k, vs[0], vs'[0]);
        if vs[0].op.ORecord? {
          RecordAlike(s, k, vs[0], vs'[0]);
          var fs, fs' := FieldsOf(vs[0]), FieldsOf(vs'[0]);
          GetRelated((x, y) => Alike(s, k, x, y), fs, fs', l);
          if Get(fs, l).Just? {
            var x, x' := Get(fs, l).value, Get(fs', l).value;
            GoodOf(s, k, x, x');
            CongMono(s, k, k + 1, x, x');
          }
        }
      }
    case OUpdate(ls) =>
      if |vs| == 1 + |ls| {
        assert Alike(s, k, vs[0], vs'[0]);
        GoodOf(s, k, vs[0], vs'[0]);
        if vs[0].op.ORecord? {
          RecordAlike(s, k, vs[0], vs'[0]);
          ZipAlike(s, k, ls, vs[1..], vs'[1..]);
          PutAlike(s, k, FieldsOf(vs[0]), FieldsOf(vs'[0]), Zip(ls, vs[1..]), Zip(ls, vs'[1..]));
        }
      }
  }

  /** Alike strict parts and related other parts lead to related steps. */
  lemma FinishSim(s: Side, k: nat, op: Op, vs: seq<Term>, vs': seq<Term>, rest: seq<Kid>, rest': seq<Kid>) returns (j: nat)
    requires AllAlike(s, k, vs, vs') && CongKids(s, k, rest, rest')
    ensures SameNext(s, j, Finish(s.right, op, vs, rest), Finish(s.right, op, vs', rest'))
  {
    hide Alike, Cong, Par, SameNext;
    j := k + 1;
    match op
    case OApp =>
      if |vs| == 2 { j := ApplySim(s, k, vs[0], vs'[0], vs[1], vs'[1]); } else { StuckSim(s, j); }
    case OPrim(_, _, _) => j := PrimSim(s, k, op, vs, vs');
    case OCase(ps) =>
      if |vs| == 1 { CaseSim(s, k, ps, vs[0], vs'[0], rest, rest'); } else { StuckSim(s, j); }
    case ORecord(_) => RecordSim(s, k, op, vs, vs', rest, rest');
    case OProj(_) => RecordSim(s, k, op, vs, vs', rest, rest');
    case OUpdate(_) => RecordSim(s, k, op, vs, vs', rest, rest');
    case _ =>
      j := k + 2;
      OtherSim(s, k, op, vs, vs', rest, rest');
  }

  lemma StuckSim(s: Side, k: nat)
    ensures SameNext(s, k, Stuck, Stuck)
  {
  }

  lemma OtherSim(s: Side, k: nat, op: Op, vs: seq<Term>, vs': seq<Term>, rest: seq<Kid>, rest': seq<Kid>)
    requires !op.OApp? && !op.OPrim? && !op.OCase? && !op.ORecord? && !op.OProj? && !op.OUpdate?
    requires AllAlike(s, k, vs, vs') && CongKids(s, k, rest, rest')
    ensures SameNext(s, k + 2, Finish(s.right, op, vs, rest), Finish(s.right, op, vs', rest'))
  {
    hide Alike, Par;
    if |vs| == 1 {
      AlikeMono(s, k, k + 2, vs, vs');
      GoodOf(s, k + 2, vs[0], vs'[0]);
      AlikePar(s, k + 1, vs, vs') by { AlikeMono(s, k, k + 1, vs, vs'); }
    }
    CongKidsMono(s, k, k + 2, rest, rest');
    CongKidsMono(s, k, k + 1, rest, rest');
    match op
    case OCon(_, _) => ArgsUp(s, k, op, vs, vs');
    case OVariant(_) => ArgsUp(s, k, op, vs, vs');
    case OMerge(_, _) => ArgsUp(s, k, ORecord(["_1", "_2"]), vs, vs');
    case OForce =>
      if |vs| == 1 && vs[0].op.OThunk? && |vs[0].kids| == 1 { BodyAlike(s, k + 2, vs[0], vs'[0]); }
    case OFix => FixSim(s, k, rest, rest');
    case _ =>
  }

  lemma FixSim(s: Side, k: nat, rest: seq<Kid>, rest': seq<Kid>)
    requires CongKids(s, k, rest, rest')
    ensures ParAll(s, k + 2, [Node(OFix, rest)], [Node(OFix, rest')])
  {
    assert Cong(s, k, Node(OFix, rest), Node(OFix, rest'));
    CongMono(s, k, k + 1, Node(OFix, rest), Node(OFix, rest'));
  }

  lemma ArgsUp(s: Side, k: nat, op: Op, vs: seq<Term>, vs': seq<Term>)
    requires AllAlike(s, k, vs, vs')
    ensures Cong(s, k + 2, Node(op, Args(vs)), Node(op, Args(vs')))
  {
    ArgsAlike(s, k, op, vs, vs');
    CongMono(s, k + 1, k + 2, Node(op, Args(vs)), Node(op, Args(vs')));
  }

  // ---- Whole runs ----

  /** Two worlds with the same primitives and globals that are related values. */
  ghost predicate Worlds(s: Side) {
    && WorldOk(s.left) && WorldOk(s.right) && s.left.delta == s.right.delta && s.left.globals.Keys == s.right.globals.Keys
    && forall g :: g in s.left.globals ==> Related1(s, s.left.globals[g], s.right.globals[g])
  }

  ghost predicate Related1(s: Side, v: Term, v': Term) { exists j: nat :: Cong(s, j, v, v') }

  function Both(w: World): Side { Side(w, w) }

  lemma SameWorld(w: World)
    requires WorldOk(w)
    ensures Worlds(Both(w))
  {
    hide Cong, GoodValue;
    forall g | g in w.globals ensures Related1(Both(w), w.globals[g], w.globals[g]) { var j := CongRefl(Both(w), w.globals[g]); }
  }

  /** A step depends on the world only through the primitives. */
  lemma FinishDelta(w: World, w': World, op: Op, vs: seq<Term>, rest: seq<Kid>)
    requires w.delta == w'.delta
    ensures Finish(w, op, vs, rest) == Finish(w', op, vs, rest)
  {
  }

  ghost predicate Reaches(s: Side, m: nat, j: nat, v: Term, t: Term) {
    Ev(s.right, m, t).Just? && Cong(s, j, v, Ev(s.right, m, t).value)
  }

  /** If the left of two related terms evaluates, so does the right one, and
      to a related value, also when the globals of the right one are related
      to those of the left one only. */
  lemma {:induction false} Sim(s: Side, n: nat, k: nat, t: Term, t': Term) returns (m: nat, j: nat)
    requires Worlds(s) && Closed(t, 0) && Par(s, k, t, t') && Ev(s.left, n, t).Just?
    ensures Reaches(s, m, j, Ev(s.left, n, t).value, t')
    decreases n, k, 0
  {
    hide Ev, Closed, Worlds, Cong, Contracts;
    if Cong(s, k - 1, t, t') {
      m, j := SimCong(s, n, k - 1, t, t');
    } else if Contracted(s, k - 1, t, t') {
      var u :| Cong(s, k - 1, t, u) && Contracts(u, t');
      m, j := SimContract(s, n, k - 1, t, u, t');
    } else {
      var i: nat, v, i': nat, v' :| Ev(s.left, i, t) == Just(v) && Ev(s.right, i', t') == Just(v') && Cong(s, k - 1, v, v');
      EvAgree(s.left, n, i, t);
      m, j := i', k - 1;
    }
  }

  /** Whatever the fuel, a term has one value. */
  lemma EvAgree(w: World, n: nat, m: nat, t: Term)
    requires Ev(w, n, t).Just? && Ev(w, m, t).Just?
    ensures Ev(w, n, t) == Ev(w, m, t)
  {
    EvMono(w, n, n + m, t);
    EvMono(w, m, n + m, t);
  }

  lemma {:induction false} SimAll(s: Side, n: nat, k: nat, a: seq<Kid>, b: seq<Kid>, len: nat) returns (m: nat, j: nat, us: seq<Term>)
    requires Worlds(s) && KidsClosed(a, 0) && CongKids(s, k, a, b) && len <= |a| && EvAll(s.left, n, a, len).Just?
    ensures EvAll(s.right, m, b, len) == Just(us) && AllAlike(s, j, EvAll(s.left, n, a, len).value, us)
    decreases n, k, 1, len
  {
    hide Par, Cong, Closed, Ev, Related1;
    if len == 0 {
      m, j, us := 0, 0, [];
    } else {
      var t, t' := a[len - 1].body, b[len - 1].body;
      var m1, j1, us1 := SimAll(s, n, k, a, b, len - 1);
      assert Closed(t, 0 + a[len - 1].binds);
      var m2, j2 := Sim(s, n, k, t, t');
      m, j := m1 + m2, j1 + j2;
      EvAllMono(s.right, m1, m, b, len - 1);
      EvMono(s.right, m2, m, t');
      var v, v' := Ev(s.left, n, t).value, Ev(s.right, m, t').value;
      us := us1 + [v'];
      ParClosed(s, k, t, t', 0);
      EvGood(s.left, n, t);
      EvGood(s.right, m, t');
      CongMono(s, j2, j, v, v');
      AlikeMono(s, j1, j, EvAll(s.left, n, a, len - 1).value, us1);
      assert EvAll(s.left, n, a, len).value == EvAll(s.left, n, a, len - 1).value + [v];
    }
  }

  /** The step that the strict children of a node lead to. */
  ghost predicate StepIs(w: World, u: Term, us: seq<Term>, b: Next)
    requires u.Node?
  {
    b == Finish(w, u.op, us, u.kids[Strict(u.op, |u.kids|)..])
  }

  /** How a related node starts: its strict parts and the step they lead to. */
  lemma {:induction false} SimStart(s: Side, n: nat, k: nat, t: Term, u: Term)
    returns (m: nat, j: nat, a: Next, us: seq<Term>, b: Next)
    requires Worlds(s) && t.Node? && Closed(t, 0) && Cong(s, k, t, u) && Ev(s.left, n, t).Just?
    ensures u.Node? && u.op == t.op && Ev(s.left, n, t) == Run(s.left, n, a)
    ensures EvAll(s.right, m, u.kids, Strict(u.op, |u.kids|)) == Just(us) && StepIs(s.right, u, us, b)
    ensures SameNext(s, j, a, b) && GoodNext(a) && GoodNext(b)
    ensures a.Go? && b.Go? && !u.op.OFix? ==> AllGood(a.args) && AllGood(b.args)
    decreases n, k, 2
  {
    hide Ev, Par, Closed, SameNext, Related1;
    var c, vs := EvNode(s.left, n, t);
    KidsOf(t, 0);
    CongClosed(s, k, t, u, 0);
    KidsOf(u, 0);
    var j1;
    m, j1, us := SimAll(s, n, k, t.kids, u.kids, c);
    j := j1 + k;
    AlikeMono(s, j1, j, vs, us);
    CongKidsMono(s, k, j, t.kids, u.kids);
    a := Finish(s.left, t.op, vs, t.kids[c..]);
    b := Finish(s.right, u.op, us, u.kids[c..]);
    FinishDelta(s.left, s.right, t.op, vs, t.kids[c..]);
    j := FinishSim(s, j, t.op, vs, us, t.kids[c..], u.kids[c..]);
    EvAllGood(s.left, n, t.kids, c);
    EvAllGood(s.right, m, u.kids, c);
    FinishGood(s.left, t.op, vs, t.kids[c..]);
    FinishGood(s.right, u.op, us, u.kids[c..]);
    GoArgsGood(s.left, t.op, vs, t.kids[c..]);
    GoArgsGood(s.right, u.op, us, u.kids[c..]);
  }

  lemma SameNextGo(s: Side, k: nat, a: Next, b: Next)
    requires SameNext(s, k, a, b)
    ensures (a.Go? ==> b.Go?) && (a.Done? ==> b.Done?)
  {
  }

  lemma KidsOf(t: Term, c: nat)
    requires t.Node? && Closed(t, c)
    ensures KidsClosed(t.kids, c)
  {
  }

  /** Except for a fixed point, a body is entered with values. */
  lemma GoArgsGood(w: World, op: Op, vs: seq<Term>, rest: seq<Kid>)
    requires AllGood(vs)
    ensures var a := Finish(w, op, vs, rest); a.Go? && !op.OFix? ==> AllGood(a.args)
  {
    if op.OCase? && |vs| == 1 {
      var c := FirstMatch(op.pats, vs[0], 0);
      if c.Choice? { MatchGood(op.pats[c.index], vs[0]); }
    }
  }

  lemma {:induction false} SimCong(s: Side, n: nat, k: nat, t: Term, t': Term) returns (m: nat, j: nat)
    requires Worlds(s) && Closed(t, 0) && Cong(s, k, t, t') && Ev(s.left, n, t).Just?
    ensures Reaches(s, m, j, Ev(s.left, n, t).value, t')
    decreases n, k, 3
  {
    hide Par, Closed, EvAll, Run, Finish, Strict;
    if t.Node? {
      var m1, j1, a, us, b := SimStart(s, n, k, t, t');
      var m2;
      m2, j := SimRun(s, n, j1, a, b);
      m := m1 + m2;
      EvAllMono(s.right, m1, m, t'.kids, Strict(t'.op, |t'.kids|));
      RunMono(s.right, m2, m, b);
      assert Ev(s.right, m, t') == Run(s.right, m, b);
    } else {
      m := n;
      assert Related1(s, s.left.globals[t.key], s.right.globals[t.key]);
      j :| Cong(s, j, s.left.globals[t.key], s.right.globals[t.key]);
    }
  }

  lemma {:induction false} SimRun(s: Side, n: nat, k: nat, a: Next, b: Next) returns (m: nat, j: nat)
    requires Worlds(s) && GoodNext(a) && GoodNext(b) && SameNext(s, k, a, b) && Run(s.left, n, a).Just?
    ensures Run(s.right, m, b).Just? && Cong(s, j, Run(s.left, n, a).value, Run(s.right, m, b).value)
    decreases n, 0, 0
  {
    hide Par, Closed, Ev, Worlds;
    if a.Done? {
      m, j := 0, k;
    } else {
      SubPar(s, k, k, a.body, b.body, a.args, b.args, 0);
      InstClosed(a.body, a.args, 0);
      var m1;
      m1, j := Sim(s, n - 1, k + k, Instantiate(a.body, a.args), Instantiate(b.body, b.args));
      m := m1 + 1;
    }
  }

  lemma {:induction false} SimContract(s: Side, n: nat, k: nat, t: Term, u: Term, t': Term) returns (m: nat, j: nat)
    requires Worlds(s) && Closed(t, 0) && Cong(s, k, t, u) && Contracts(u, t') && Ev(s.left, n, t).Just?
    ensures Reaches(s, m, j, Ev(s.left, n, t).value, t')
    decreases n, k, 4
  {
    hide Ev, Closed, Par, Substitutive, Exact, Related1;
    CongClosed(s, k, t, u, 0);
    if Substitutive(u, t') {
      m, j := SimSubstitutive(s, n, k, t, u, t');
    } else {
      var m1;
      m1, j := SimCong(s, n, k, t, u);
      m := ExactEval(s.right, m1, u, t');
    }
  }

  lemma {:induction false} SimSubstitutive(s: Side, n: nat, k: nat, t: Term, u: Term, t': Term) returns (m: nat, j: nat)
    requires Worlds(s) && Closed(t, 0) && Closed(u, 0) && Cong(s, k, t, u) && Substitutive(u, t') && Ev(s.left, n, t).Just?
    ensures Reaches(s, m, j, Ev(s.left, n, t).value, t')
    decreases n, k, 3
  {
    hide Ev, Closed, Par, EvAll, Finish, Strict, Worlds;
    var m1, j1, a, us, b := SimStart(s, n, k, t, u);
    NeverDone(s.right, m1, u, t', us);
    SameNextGo(s, j1, a, b);
    var cs := SubstitutiveEval(s.right, m1, u, t', b.body, b.args);
    StandFor(s, m1, j1, a.args, b.args, cs);
    SubPar(s, j1, j1, a.body, b.body, a.args, cs, 0);
    InstClosed(a.body, a.args, 0);
    m, j := Sim(s, n - 1, j1 + j1, Instantiate(a.body, a.args), t');
  }

  /** A substitutive redex enters a body, with values. */
  lemma NeverDone(w: World, m: nat, u: Term, t: Term, us: seq<Term>)
    requires Substitutive(u, t) && EvAll(w, m, u.kids, Strict(u.op, |u.kids|)) == Just(us)
    ensures !u.op.OFix? && !Finish(w, u.op, us, u.kids[Strict(u.op, |u.kids|)..]).Done?
  {
    hide Ev, Collects, Picks;
    if Beta(u, t) {
      EvAllAt(w, m, u.kids, Strict(u.op, |u.kids|), 0);
      EvLam(w, m, u.kids[0].body);
    }
  }

  /** Values stand for the terms that evaluate to their counterparts. */
  lemma StandFor(s: Side, m: nat, k: nat, vs: seq<Term>, us: seq<Term>, cs: seq<Term>)
    requires ParAll(s, k, vs, us) && AllGood(vs) && AllGood(us) && EvEach(s.right, m, cs, us) && AllClosed(cs)
    ensures ParAll(s, k, vs, cs)
  {
    hide Cong, Contracted, Closed, IsValue, Ev;
    forall i | 0 <= i < |vs| ensures Par(s, k, vs[i], cs[i]) {
      ParVal(s, k, vs[i], us[i]);
      EvValue(s.left, 0, vs[i]);
      assert Ev(s.left, 0, vs[i]) == Just(vs[i]) && Ev(s.right, m, cs[i]) == Just(us[i]);
      assert Meets(s, k - 1, vs[i], cs[i]);
    }
  }
}
