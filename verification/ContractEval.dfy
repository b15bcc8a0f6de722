/**
  What contractions do to evaluation.
 */
module ContractEval {
  import opened Nameless
  import opened Records
  import opened Eval
  import opened EvalFacts
  import opened Contract
  import opened ContractClosed

  /** How a node evaluated: its strict children and the step they led to. */
  lemma EvNode(w: World, n: nat, t: Term) returns (k: nat, vs: seq<Term>)
    requires t.Node? && Ev(w, n, t).Just?
    ensures k == Strict(t.op, |t.kids|) && EvAll(w, n, t.kids, k) == Just(vs)
    ensures Ev(w, n, t) == Run(w, n, Finish(w, t.op, vs, t.kids[k..]))
  {
    k := Strict(t.op, |t.kids|);
    vs := EvAll(w, n, t.kids, k).value;
  }

  /** A node evaluates once its strict children do. */
  lemma EvIntro(w: World, n: nat, op: Op, kids: seq<Kid>, vs: seq<Term>)
    requires |vs| == Strict(op, |kids|)
    requires forall i :: 0 <= i < |vs| ==> kids[i].binds == 0 && Ev(w, n, kids[i].body) == Just(vs[i])
    ensures Ev(w, n, Node(op, kids)) == Run(w, n, Finish(w, op, vs, kids[|vs|..]))
  {
    EvAllFrom(w, n, kids, |vs|, vs);
  }

  // ---- Known cases ----

  lemma {:induction false} MissMatch(w: World, n: nat, p: Shape, s: Term)
    requires Misses(p, s) && Ev(w, n, s).Just?
    ensures Match(p, Ev(w, n, s).value).Nothing?
  {
    var k, vs := EvNode(w, n, s);
  }

  /** A record literal evaluates to a record holding the values of its fields. */
  lemma LiteralRecord(w: World, n: nat, s: Term) returns (vs: seq<Term>)
    requires IsLiteralRecord(s) && Ev(w, n, s).Just?
    ensures |vs| == |s.kids| && Uniq(s.op.labels)
    ensures forall i :: 0 <= i < |vs| ==> Ev(w, n, s.kids[i].body) == Just(vs[i])
    ensures Ev(w, n, s) == Just(RecordOf(Put([], Zip(s.op.labels, vs))))
  {
    var k;
    k, vs := EvNode(w, n, s);
    forall i | 0 <= i < |vs| ensures Ev(w, n, s.kids[i].body) == Just(vs[i]) { EvAllAt(w, n, s.kids, k, i); }
  }

  /** A field of a record literal evaluates to that field of its value. */
  lemma LiteralField(w: World, n: nat, s: Term, l: string)
    requires IsLiteralRecord(s) && Ev(w, n, s).Just?
    ensures var v := Ev(w, n, s).value;
      && v.Node? && v.op.ORecord? && |v.op.labels| == |v.kids|
      && (Get(FieldsOf(s), l).Just? <==> Get(FieldsOf(v), l).Just?)
      && (Get(FieldsOf(s), l).Just? ==> Ev(w, n, Get(FieldsOf(s), l).value) == Get(FieldsOf(v), l))
  {
    var vs := LiteralRecord(w, n, s);
    var us := Zip(s.op.labels, vs);
    assert DistinctLabels(LabelsOf(us));
    GetPut([], us, l);
    var fs := Put([], us);
    assert FieldsOf(RecordOf(fs)) == fs by {
      assert Bodies(Args(ValuesOf(fs))) == ValuesOf(fs);
      assert Zip(LabelsOf(fs), ValuesOf(fs)) == fs;
    }
    GetRelated((x, y) => Ev(w, n, x) == Just(y), FieldsOf(s), us, l);
  }

  lemma ProjEval(w: World, n: nat, s: Term, l: string)
    requires Ev(w, n, s).Just?
    requires var v := Ev(w, n, s).value; v.Node? && v.op.ORecord? && |v.op.labels| == |v.kids|
    ensures Ev(w, n, ProjOf(s, l)) == Get(FieldsOf(Ev(w, n, s).value), l)
  {
    var kids := [Kid(0, s)];
    EvAllFrom(w, n, kids, 1, [Ev(w, n, s).value]);
  }

  ghost predicate EvEach(w: World, n: nat, cs: seq<Term>, us: seq<Term>) {
    |cs| == |us| && forall i :: 0 <= i < |cs| ==> Ev(w, n, cs[i]) == Just(us[i])
  }

  lemma EvEachJoin(w: World, n: nat, cs: seq<Term>, k: nat, a: seq<Term>, b: seq<Term>)
    requires k <= |cs| && EvEach(w, n, cs[..k], a) && EvEach(w, n, cs[k..], b)
    ensures EvEach(w, n, cs, a + b)
  {
    forall i | 0 <= i < |cs| ensures Ev(w, n, cs[i]) == Just((a + b)[i]) {
      if i < k { assert cs[i] == cs[..k][i]; } else { assert cs[i] == cs[k..][i - k]; }
    }
  }

  /** The collected terms evaluate to what the pattern binds in the value. */
  lemma {:induction false} CollectsEval(w: World, n: nat, p: Shape, s: Term, cs: seq<Term>)
    requires Collects(p, s, cs) && Ev(w, n, s).Just? && Match(p, Ev(w, n, s).value).Just?
    ensures EvEach(w, n, cs, Match(p, Ev(w, n, s).value).value)
  {
    match p
    case SVar =>
    case SWild =>
    case SLit(_) =>
    case SCon(_, _, args) =>
      var k, vs := EvNode(w, n, s);
      forall i | 0 <= i < |vs| ensures Ev(w, n, Bodies(s.kids)[i]) == Just(vs[i]) { EvAllAt(w, n, s.kids, k, i); }
      assert Bodies(Args(vs)) == vs;
      CollectsAllEval(w, n, args, Bodies(s.kids), vs, cs);
    case SRecord(fs) => CollectsFieldsEval(w, n, fs, s, cs);
    case SLabel(_, _) =>
  }

  lemma {:induction false} CollectsAllEval(w: World, n: nat, ps: seq<Shape>, ss: seq<Term>, vs: seq<Term>, cs: seq<Term>)
    requires |ps| == |ss| && CollectsAll(ps, ss, cs) && EvEach(w, n, ss, vs) && MatchAll(ps, vs).Just?
    ensures EvEach(w, n, cs, MatchAll(ps, vs).value)
  {
    if ps != [] {
      var k := Width(ps[0]);
      assert Ev(w, n, ss[0]) == Just(vs[0]);
      CollectsEval(w, n, ps[0], ss[0], cs[..k]);
      CollectsAllEval(w, n, ps[1..], ss[1..], vs[1..], cs[k..]);
      EvEachJoin(w, n, cs, k, Match(ps[0], vs[0]).value, MatchAll(ps[1..], vs[1..]).value);
    }
  }

  lemma {:induction false} CollectsFieldsEval(w: World, n: nat, ps: seq<SField>, s: Term, cs: seq<Term>)
    requires CollectsFields(ps, s, cs) && Ev(w, n, s).Just?
    requires var v := Ev(w, n, s).value; v.Node? && v.op.ORecord? && |v.op.labels| == |v.kids|
    requires MatchFields(ps, FieldsOf(Ev(w, n, s).value)).Just?
    ensures EvEach(w, n, cs, MatchFields(ps, FieldsOf(Ev(w, n, s).value)).value)
  {
    if ps != [] {
      assert ps[0].pat < ps[0];
      var k, l := Width(ps[0].pat), ps[0].lbl;
      var v := Ev(w, n, s).value;
      ProjEval(w, n, s, l);
      if Collects(ps[0].pat, ProjOf(s, l), cs[..k]) {
        CollectsEval(w, n, ps[0].pat, ProjOf(s, l), cs[..k]);
      } else {
        LiteralField(w, n, s, l);
        CollectsEval(w, n, ps[0].pat, Get(FieldsOf(s), l).value, cs[..k]);
      }
      CollectsFieldsEval(w, n, ps[1..], s, cs[k..]);
      EvEachJoin(w, n, cs, k, Match(ps[0].pat, Get(FieldsOf(v), l).value).value, MatchFields(ps[1..], FieldsOf(v)).value);
    }
  }

  /** A certain pattern matches. */
  lemma {:induction false} CertainMatch(w: World, n: nat, p: Shape, s: Term)
    requires Certain(p, s) && Ev(w, n, s).Just?
    ensures Match(p, Ev(w, n, s).value).Just?
  {
    match p
    case SVar =>
    case SWild =>
    case SLit(_) =>
    case SCon(_, _, args) =>
      var k, vs := EvNode(w, n, s);
      assert Bodies(Args(vs)) == vs;
      forall i | 0 <= i < |args| ensures Match(args[i], vs[i]).Just? {
        EvAllAt(w, n, s.kids, k, i);
        CertainMatch(w, n, args[i], s.kids[i].body);
      }
      AllMatch(args, vs);
    case SRecord(fs) =>
      LiteralField(w, n, s, "");
      var v := Ev(w, n, s).value;
      forall i | 0 <= i < |fs|
        ensures Get(FieldsOf(v), fs[i].lbl).Just? && Match(fs[i].pat, Get(FieldsOf(v), fs[i].lbl).value).Just?
      {
        assert fs[i].pat < fs[i];
        LiteralField(w, n, s, fs[i].lbl);
        CertainMatch(w, n, fs[i].pat, Get(FieldsOf(s), fs[i].lbl).value);
      }
      AllFieldsMatch(fs, FieldsOf(v));
    case SLabel(_, _) =>
  }

  lemma {:induction false} AllMatch(ps: seq<Shape>, vs: seq<Term>)
    requires |ps| == |vs| && forall i :: 0 <= i < |ps| ==> Match(ps[i], vs[i]).Just?
    ensures MatchAll(ps, vs).Just?
  {
    if ps != [] { AllMatch(ps[1..], vs[1..]); }
  }

  lemma {:induction false} AllFieldsMatch(ps: seq<SField>, fs: seq<Fd<Term>>)
    requires forall i :: 0 <= i < |ps| ==> Get(fs, ps[i].lbl).Just? && Match(ps[i].pat, Get(fs, ps[i].lbl).value).Just?
    ensures MatchFields(ps, fs).Just?
  {
    if ps != [] { AllFieldsMatch(ps[1..], fs); }
  }

  lemma {:induction false} FirstMatchIs(ps: seq<Shape>, v: Term, from: nat, i: nat)
    requires from <= i < |ps| && forall j :: from <= j < i ==> Match(ps[j], v).Nothing?
    ensures Match(ps[i], v).Just? ==> FirstMatch(ps, v, from) == Choice(i, Match(ps[i], v).value)
    ensures (forall j :: i <= j < |ps| ==> Match(ps[j], v).Nothing?) ==> FirstMatch(ps, v, from) == NoChoice
    decreases |ps| - from
  {
    if from < i {
      FirstMatchIs(ps, v, from + 1, i);
    } else if i + 1 < |ps| {
      FirstMatchIs(ps, v, from + 1, i + 1);
    }
  }

  /** First-match evaluation takes the alternative the contraction picks, or is stuck. */
  lemma PickedFirst(w: World, n: nat, ps: seq<Shape>, s: Term, i: nat)
    requires i < |ps| && Picks(ps, s, i) && Ev(w, n, s).Just?
    ensures var v := Ev(w, n, s).value;
      FirstMatch(ps, v, 0) == (if Match(ps[i], v).Just? then Choice(i, Match(ps[i], v).value) else NoChoice)
  {
    var v := Ev(w, n, s).value;
    forall j | 0 <= j < |ps| && Misses(ps[j], s) ensures Match(ps[j], v).Nothing? { MissMatch(w, n, ps[j], s); }
    if Certain(ps[i], s) { CertainMatch(w, n, ps[i], s); }
    FirstMatchIs(ps, v, 0, i);
  }

  /** A substitutive contraction fills the very body that evaluation enters,
      with terms that evaluate to what evaluation fills it with. */
  lemma SubstitutiveEval(w: World, n: nat, u: Term, t: Term, b: Term, us: seq<Term>) returns (cs: seq<Term>)
    requires u.Node? && Substitutive(u, t)
    requires EvAll(w, n, u.kids, Strict(u.op, |u.kids|)).Just?
    requires Finish(w, u.op, EvAll(w, n, u.kids, Strict(u.op, |u.kids|)).value, u.kids[Strict(u.op, |u.kids|)..]) == Go(b, us)
    ensures t == Instantiate(b, cs) && EvEach(w, n, cs, us)
    ensures Closed(u, 0) ==> AllClosed(cs)
  {
    hide Ev, Collects, Picks, Closed;
    var k := Strict(u.op, |u.kids|);
    var vs := EvAll(w, n, u.kids, k).value;
    EvAllAt(w, n, u.kids, k, 0);
    if Beta(u, t) {
      EvAllAt(w, n, u.kids, k, 1);
      EvLam(w, n, u.kids[0].body);
      cs := [u.kids[1].body];
      if Closed(u, 0) { KidClosed(u, 0, 1); }
    } else if BindPure(u, t) {
      PureEval(w, n, u.kids[0].body);
      cs := [u.kids[0].body.kids[0].body];
      if Closed(u, 0) {
        KidClosed(u, 0, 0);
        KidClosed(u.kids[0].body, 0, 0);
      }
    } else {
      var i: nat, ds :| KnownCaseAt(u, t, i, ds);
      PickedFirst(w, n, u.op.pats, u.kids[0].body, i);
      CollectsEval(w, n, u.op.pats[i], u.kids[0].body, ds);
      assert u.kids[1..][i] == u.kids[i + 1];
      cs := Rev(ds);
      if Closed(u, 0) {
        KidClosed(u, 0, 0);
        CollectsClosed(u.op.pats[i], u.kids[0].body, ds, 0);
      }
    }
  }

  lemma EvLam(w: World, n: nat, f: Term)
    requires f.Node? && f.op.OLam? && |f.kids| == 1 && f.kids[0].binds == 1
    ensures Ev(w, n, f) == Just(f)
  {
    assert f.kids[0..] == f.kids;
  }

  lemma PureEval(w: World, n: nat, c: Term)
    requires c.Node? && c.op.OPure? && |c.kids| == 1 && c.kids[0].binds == 0 && Ev(w, n, c).Just?
    ensures Ev(w, n, c.kids[0].body) == Ev(w, n, c)
  {
    var k, vs := EvNode(w, n, c);
    EvAllAt(w, n, c.kids, k, 0);
  }

  // ---- Exact contractions ----

  lemma ForceThunkEval(w: World, n: nat, u: Term, t: Term)
    requires ForceThunk(u, t) && Ev(w, n, u).Just?
    ensures n > 0 && Ev(w, n - 1, t) == Ev(w, n, u)
  {
    var k, vs := EvNode(w, n, u);
    EvAllAt(w, n, u.kids, k, 0);
    var c := u.kids[0].body;
    assert c.kids[0..] == c.kids;
    InstNil(t);
  }

  lemma ProjKnownEval(w: World, n: nat, u: Term, t: Term)
    requires ProjKnown(u, t) && Ev(w, n, u).Just?
    ensures Ev(w, n, t) == Ev(w, n, u)
  {
    var k, vs := EvNode(w, n, u);
    EvAllAt(w, n, u.kids, k, 0);
    LiteralField(w, n, u.kids[0].body, u.op.lbl);
  }

  lemma PrimAbsorbEval(w: World, n: nat, u: Term, t: Term)
    requires PrimAbsorb(u, t) && Ev(w, n, u).Just?
    ensures Ev(w, n, t) == Ev(w, n, u)
  {
    hide Ev;
    var k, vs := EvNode(w, n, u);
    EvAllAt(w, n, u.kids, k, 0);
    EvAllAt(w, n, u.kids, k, 1);
    var p := u.kids[0].body;
    var j, ps := EvNode(w, n, p);
    assert Bodies(Args(ps)) == ps;
    var kids, all := p.kids + [u.kids[1]], ps + [vs[1]];
    forall i | 0 <= i < |all| ensures kids[i].binds == 0 && Ev(w, n, kids[i].body) == Just(all[i]) {
      if i < |ps| { EvAllAt(w, n, p.kids, j, i); }
    }
    EvIntro(w, n, p.op, kids, all);
  }

  /** An update evaluates its record and its fields. */
  lemma UpdateParts(w: World, n: nat, u: Term) returns (v: Term, us: seq<Fd<Term>>)
    requires IsUpdate(u) && Ev(w, n, u).Just?
    ensures Ev(w, n, u.kids[0].body) == Just(v) && v.Node? && v.op.ORecord? && |v.op.labels| == |v.kids|
    ensures Related((x, y) => Ev(w, n, x) == Just(y), UpdatesOf(u), us)
    ensures LabelsOf(us) == u.op.labels && Uniq(u.op.labels)
    ensures Ev(w, n, u) == Just(RecordOf(Put(FieldsOf(v), us)))
  {
    var k, vs := EvNode(w, n, u);
    EvAllAt(w, n, u.kids, k, 0);
    v, us := vs[0], Zip(u.op.labels, vs[1..]);
    forall i | 0 <= i < |us|
      ensures UpdatesOf(u)[i].lbl == us[i].lbl && Ev(w, n, UpdatesOf(u)[i].val) == Just(us[i].val)
    {
      EvAllAt(w, n, u.kids, k, i + 1);
      assert Bodies(u.kids[1..])[i] == u.kids[i + 1].body;
    }
  }

  lemma UpdateNodeEval(w: World, n: nat, r: Term, fs: seq<Fd<Term>>, v: Term, us: seq<Fd<Term>>)
    requires Ev(w, n, r) == Just(v) && v.Node? && v.op.ORecord? && |v.op.labels| == |v.kids|
    requires Related((x, y) => Ev(w, n, x) == Just(y), fs, us) && Uniq(LabelsOf(us))
    ensures Ev(w, n, UpdateNode(r, fs)) == Just(RecordOf(Put(FieldsOf(v), us)))
  {
    hide Ev, Put;
    var kids, all := [Kid(0, r)] + Args(ValuesOf(fs)), [v] + ValuesOf(us);
    forall i | 0 <= i < |all| ensures kids[i].binds == 0 && Ev(w, n, kids[i].body) == Just(all[i]) {
      if i > 0 { assert kids[i] == Kid(0, fs[i - 1].val) && all[i] == us[i - 1].val; }
    }
    EvIntro(w, n, OUpdate(LabelsOf(fs)), kids, all);
    assert LabelsOf(fs) == LabelsOf(us) && all[1..] == ValuesOf(us) && Zip(LabelsOf(us), ValuesOf(us)) == us;
  }

  lemma UpdateChainEval(w: World, n: nat, u: Term, t: Term)
    requires WorldOk(w) && Closed(u, 0) && UpdateChain(u, t) && Ev(w, n, u).Just?
    ensures Ev(w, n, t) == Ev(w, n, u)
  {
    hide Ev;
    var inner := u.kids[0].body;
    assert KidsClosed(u.kids, 0);
    assert Closed(inner, 0 + u.kids[0].binds);
    assert KidsClosed(inner.kids, 0);
    var v1, outs := UpdateParts(w, n, u);
    var v, ins := UpdateParts(w, n, inner);
    assert Closed(inner.kids[0].body, 0 + inner.kids[0].binds);
    EvGood(w, n, inner.kids[0].body);
    FieldsGood(v);
    var fs := Put(FieldsOf(v), ins);
    assert Bodies(Args(ValuesOf(fs))) == ValuesOf(fs) && Zip(LabelsOf(fs), ValuesOf(fs)) == fs;
    assert FieldsOf(v1) == fs;
    PutChain(FieldsOf(v), ins, outs);
    MergedEval(w, n, UpdatesOf(inner), ins, UpdatesOf(u), outs, u.op.labels);
    UpdateNodeEval(w, n, inner.kids[0].body, Unshadowed(UpdatesOf(inner), u.op.labels) + UpdatesOf(u),
                   v, Unshadowed(ins, u.op.labels) + outs);
  }

  lemma MergedEval(w: World, n: nat, a: seq<Fd<Term>>, a': seq<Fd<Term>>, b: seq<Fd<Term>>, b': seq<Fd<Term>>, ls: seq<string>)
    requires Related((x, y) => Ev(w, n, x) == Just(y), a, a') && Related((x, y) => Ev(w, n, x) == Just(y), b, b')
    ensures Related((x, y) => Ev(w, n, x) == Just(y), Unshadowed(a, ls) + b, Unshadowed(a', ls) + b')
  {
    hide Ev;
    UnshadowedRelated((x, y) => Ev(w, n, x) == Just(y), a, a', ls);
  }

  /** Filling the binders a continuation was moved under leaves it as it was. */
  lemma PushedInst(op: Op, alts: seq<Kid>, rest: seq<Kid>, i: nat, us: seq<Term>)
    requires i < |alts| && alts[i].binds == |us|
    ensures Instantiate(Pushed(op, alts, rest)[i].body, us)
         == Node(op, [Kid(0, Instantiate(alts[i].body, us))] + rest)
  {
    var b := |us|;
    var kids := [Kid(0, alts[i].body)] + ShiftKids(rest, b, 0);
    forall j | 0 <= j < |rest|
      ensures Act(Shift(rest[j].body, b, 0 + rest[j].binds), Inst(us), 0 + rest[j].binds) == rest[j].body
    {
      InstShift(rest[j].body, us, b, rest[j].binds, rest[j].binds);
      ShiftZero(rest[j].body, rest[j].binds);
    }
    assert ActKids(kids, Inst(us), 0) == [Kid(0, Instantiate(alts[i].body, us))] + rest;
  }

  lemma CommuteCaseEval(w: World, n: nat, u: Term, t: Term)
    requires CommuteCase(u, t) && Ev(w, n, u).Just?
    ensures Ev(w, n + 1, t) == Ev(w, n, u)
  {
    hide Ev;
    var q, rest := u.kids[0].body, u.kids[1..];
    var alts := q.kids[1..];
    var v, i, us := CaseParts(w, n, u);
    PushedInst(u.op, alts, rest, i, Rev(us));
    CaseEval(w, n, t, v, i, us);
    var b := Instantiate(alts[i].body, Rev(us));
    FrameEval(w, n, u.op, q, b, rest);
    assert u.kids == [Kid(0, q)] + rest;
  }

  /** The scrutinee of the inner case, the alternative taken and its bindings. */
  lemma CaseParts(w: World, n: nat, u: Term) returns (v: Term, i: nat, us: seq<Term>)
    requires u.Node? && (u.op.OCase? || u.op.OBind?) && |u.kids| > 0 && u.kids[0].binds == 0
    requires IsCase(u.kids[0].body) && Ev(w, n, u).Just?
    ensures var q := u.kids[0].body;
      && Ev(w, n, q.kids[0].body) == Just(v)
      && FirstMatch(q.op.pats, v, 0) == Choice(i, us) && i < |q.op.pats| && q.kids[i + 1].binds == |us|
      && n > 0 && Ev(w, n, q).Just? && Ev(w, n, q) == Ev(w, n - 1, Instantiate(q.kids[i + 1].body, Rev(us)))
  {
    var k, ws := EvNode(w, n, u);
    EvAllAt(w, n, u.kids, k, 0);
    var q := u.kids[0].body;
    var j, vs := EvNode(w, n, q);
    EvAllAt(w, n, q.kids, j, 0);
    v := vs[0];
    var c := FirstMatch(q.op.pats, v, 0);
    i, us := c.index, c.bound;
    assert q.kids[1..][i] == q.kids[i + 1];
  }

  lemma CaseEval(w: World, n: nat, t: Term, v: Term, i: nat, us: seq<Term>)
    requires IsCase(t) && Ev(w, n, t.kids[0].body) == Just(v)
    requires i < |t.op.pats| && FirstMatch(t.op.pats, v, 0) == Choice(i, us) && t.kids[i + 1].binds == |us|
    ensures Ev(w, n + 1, t) == Ev(w, n, Instantiate(t.kids[i + 1].body, Rev(us)))
  {
    hide Ev, FirstMatch;
    EvMono(w, n, n + 1, t.kids[0].body);
    EvIntro(w, n + 1, t.op, t.kids, [v]);
    assert t.kids[1..][i] == t.kids[i + 1];
  }

  /** A case or bind only looks at the value of what it continues. */
  lemma FrameEval(w: World, n: nat, op: Op, q: Term, b: Term, rest: seq<Kid>)
    requires (op.OCase? || op.OBind?) && n > 0 && Ev(w, n - 1, b).Just? && Ev(w, n, q) == Ev(w, n - 1, b)
    ensures Ev(w, n, Node(op, [Kid(0, b)] + rest)) == Ev(w, n, Node(op, [Kid(0, q)] + rest))
  {
    hide Ev;
    EvMono(w, n - 1, n, b);
    var v := Ev(w, n, q).value;
    var ks, qs := [Kid(0, b)] + rest, [Kid(0, q)] + rest;
    EvIntro(w, n, op, ks, [v]);
    EvIntro(w, n, op, qs, [v]);
    assert ks[1..] == rest && qs[1..] == rest;
  }

  /** An exact contraction keeps the value. */
  lemma ExactEval(w: World, n: nat, u: Term, t: Term) returns (m: nat)
    requires WorldOk(w) && Closed(u, 0) && Exact(u, t) && Ev(w, n, u).Just?
    ensures Ev(w, m, t) == Ev(w, n, u)
  {
    hide Ev, ForceThunk, ProjKnown, UpdateChain, PrimAbsorb, CommuteCase;
    if ForceThunk(u, t) {
      ForceThunkEval(w, n, u, t);
      m := n - 1;
    } else if ProjKnown(u, t) {
      ProjKnownEval(w, n, u, t);
      m := n;
    } else if UpdateChain(u, t) {
      UpdateChainEval(w, n, u, t);
      m := n;
    } else if PrimAbsorb(u, t) {
      PrimAbsorbEval(w, n, u, t);
      m := n;
    } else {
      CommuteCaseEval(w, n, u, t);
      m := n + 1;
    }
  }
}
