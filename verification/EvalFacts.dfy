/**
  What evaluation guarantees: more fuel changes nothing, results are closed
  values, and values evaluate to themselves.
 */
module EvalFacts {
  import opened Nameless
  import opened Order
  import opened Records
  import opened Eval

  // ---- Closed terms ----

  ghost predicate Closed(t: Term, c: nat) {
    match t
    case Bound(i) => i < c
    case Free(_) => true
    case Node(_, kids) => KidsClosed(kids, c)
  }

  ghost predicate KidsClosed(kids: seq<Kid>, c: nat) {
    forall i :: 0 <= i < |kids| ==> (assert kids[i].body < kids[i]; Closed(kids[i].body, c + kids[i].binds))
  }

  ghost predicate AllClosed(us: seq<Term>) { forall i :: 0 <= i < |us| ==> Closed(us[i], 0) }

  lemma {:induction false} ClosedMore(t: Term, c: nat, d: nat)
    requires Closed(t, c) && c <= d
    ensures Closed(t, d)
  {
    if t.Node? {
      forall i | 0 <= i < |t.kids| ensures Closed(t.kids[i].body, d + t.kids[i].binds) {
        assert t.kids[i].body < t.kids[i];
        ClosedMore(t.kids[i].body, c + t.kids[i].binds, d + t.kids[i].binds);
      }
    }
  }

  lemma {:induction false} ShiftClosed(t: Term, k: nat, c: nat)
    requires Closed(t, c)
    ensures Shift(t, k, c) == t
  {
    if t.Node? {
      forall i | 0 <= i < |t.kids| ensures Shift(t.kids[i].body, k, c + t.kids[i].binds) == t.kids[i].body {
        assert t.kids[i].body < t.kids[i];
        ShiftClosed(t.kids[i].body, k, c + t.kids[i].binds);
      }
      assert ShiftKids(t.kids, k, c) == t.kids;
    }
  }

  lemma {:induction false} InstNotThere(t: Term, us: seq<Term>, c: nat)
    requires Closed(t, c)
    ensures Act(t, Inst(us), c) == t
  {
    if t.Node? {
      forall i | 0 <= i < |t.kids| ensures Act(t.kids[i].body, Inst(us), c + t.kids[i].binds) == t.kids[i].body {
        assert t.kids[i].body < t.kids[i];
        InstNotThere(t.kids[i].body, us, c + t.kids[i].binds);
      }
      assert ActKids(t.kids, Inst(us), c) == t.kids;
    }
  }

  lemma {:induction false} InstClosed(t: Term, us: seq<Term>, c: nat)
    requires Closed(t, c + |us|) && AllClosed(us)
    ensures Closed(Act(t, Inst(us), c), c)
  {
    match t
    case Bound(i) =>
      if c <= i < c + |us| {
        ShiftClosed(us[i - c], c, 0);
        ClosedMore(us[i - c], 0, c);
      }
    case Free(_) =>
    case Node(_, kids) =>
      var kids' := ActKids(kids, Inst(us), c);
      forall i | 0 <= i < |kids| ensures Closed(kids'[i].body, c + kids'[i].binds) {
        assert kids[i].body < kids[i];
        assert c + |us| + kids[i].binds == c + kids[i].binds + |us|;
        InstClosed(kids[i].body, us, c + kids[i].binds);
      }
  }

  lemma InstNil(t: Term)
    ensures Instantiate(t, []) == t
  {
    ShiftZero(t, 0);
    InstShift(t, [], 0, 0, 0);
  }

  // ---- Fuel ----

  lemma {:induction false} EvMono(w: World, n: nat, m: nat, t: Term)
    requires Ev(w, n, t).Just? && n <= m
    ensures Ev(w, m, t) == Ev(w, n, t)
    decreases n, 1, t
  {
    if t.Node? {
      var k := Strict(t.op, |t.kids|);
      EvAllMono(w, n, m, t.kids, k);
      RunMono(w, n, m, Finish(w, t.op, EvAll(w, n, t.kids, k).value, t.kids[k..]));
    }
  }

  lemma {:induction false} EvAllMono(w: World, n: nat, m: nat, kids: seq<Kid>, k: nat)
    requires k <= |kids| && EvAll(w, n, kids, k).Just? && n <= m
    ensures EvAll(w, m, kids, k) == EvAll(w, n, kids, k)
    decreases n, 1, kids, k
  {
    if k > 0 {
      assert kids[k - 1].body < kids[k - 1];
      EvAllMono(w, n, m, kids, k - 1);
      EvMono(w, n, m, kids[k - 1].body);
    }
  }

  lemma {:induction false} RunMono(w: World, n: nat, m: nat, next: Next)
    requires Run(w, n, next).Just? && n <= m
    ensures Run(w, m, next) == Run(w, n, next)
    decreases n, 0
  {
    if next.Go? { EvMono(w, n - 1, m - 1, Instantiate(next.body, next.args)); }
  }

  /** The value of each evaluated child. */
  lemma {:induction false} EvAllAt(w: World, n: nat, kids: seq<Kid>, k: nat, i: nat)
    requires i < k <= |kids| && EvAll(w, n, kids, k).Just?
    ensures kids[i].binds == 0 && Ev(w, n, kids[i].body) == Just(EvAll(w, n, kids, k).value[i])
    decreases k
  {
    if i < k - 1 { EvAllAt(w, n, kids, k - 1, i); }
  }

  /** All children evaluate once each of them does. */
  lemma {:induction false} EvAllFrom(w: World, n: nat, kids: seq<Kid>, k: nat, vs: seq<Term>)
    requires k == |vs| <= |kids|
    requires forall i :: 0 <= i < k ==> kids[i].binds == 0 && Ev(w, n, kids[i].body) == Just(vs[i])
    ensures EvAll(w, n, kids, k) == Just(vs)
    decreases k
  {
    if k > 0 {
      EvAllFrom(w, n, kids, k - 1, vs[..k - 1]);
      assert vs == vs[..k - 1] + [vs[k - 1]];
    }
  }

  // ---- Values ----

  ghost predicate GoodValue(v: Term) { IsValue(v) && Closed(v, 0) }

  ghost predicate AllGood(vs: seq<Term>) { forall i :: 0 <= i < |vs| ==> GoodValue(vs[i]) }

  ghost predicate WorldOk(w: World) { forall k :: k in w.globals ==> GoodValue(w.globals[k]) }

  lemma ArgsGood(op: Op, vs: seq<Term>)
    requires AllGood(vs)
    requires op.OCon? || (op.OVariant? && |vs| == 1) || Deferred(op, |vs|)
    ensures GoodValue(Node(op, Args(vs)))
  {
    var kids := Args(vs);
    assert forall i :: 0 <= i < |kids| ==> kids[i].body == vs[i] && GoodValue(vs[i]);
  }

  lemma BodiesGood(v: Term)
    requires GoodValue(v) && (v.op.OCon? || v.op.OVariant? || v.op.OPrim? || v.op.ORecord?)
    ensures AllPlain(v.kids) && AllGood(Bodies(v.kids)) && Args(Bodies(v.kids)) == v.kids
  {
    assert KidsAreValues(v.kids) && KidsClosed(v.kids, 0);
    forall i | 0 <= i < |v.kids| ensures GoodValue(Bodies(v.kids)[i]) {
      assert Bodies(v.kids)[i] == v.kids[i].body && 0 + v.kids[i].binds == 0;
    }
  }

  ghost predicate GoodFields(fs: seq<Fd<Term>>) { forall i :: 0 <= i < |fs| ==> GoodValue(fs[i].val) }

  lemma RecordGood(fs: seq<Fd<Term>>)
    requires Sorted(fs) && GoodFields(fs)
    ensures GoodValue(RecordOf(fs)) && FieldsOf(RecordOf(fs)) == fs
  {
    var v := RecordOf(fs);
    assert Bodies(v.kids) == ValuesOf(fs);
    assert Zip(LabelsOf(fs), ValuesOf(fs)) == fs;
    assert forall i :: 0 <= i < |v.kids| ==> v.kids[i].body == fs[i].val && GoodValue(fs[i].val);
  }

  lemma FieldsGood(v: Term)
    requires GoodValue(v) && v.op.ORecord?
    ensures |v.op.labels| == |v.kids| && Sorted(FieldsOf(v)) && GoodFields(FieldsOf(v)) && RecordOf(FieldsOf(v)) == v
  {
    BodiesGood(v);
    var fs := FieldsOf(v);
    assert forall i :: 0 <= i < |fs| ==> fs[i].val == Bodies(v.kids)[i];
    assert LabelsOf(fs) == v.op.labels && ValuesOf(fs) == Bodies(v.kids);
  }

  lemma {:induction false} InsertGood(fs: seq<Fd<Term>>, l: string, v: Term)
    requires GoodFields(fs) && GoodValue(v)
    ensures GoodFields(Insert(fs, l, v))
  {
    if fs != [] && fs[0].lbl != l && !Less(l, fs[0].lbl) { InsertGood(fs[1..], l, v); }
  }

  lemma {:induction false} PutGood(fs: seq<Fd<Term>>, us: seq<Fd<Term>>)
    requires GoodFields(fs) && GoodFields(us)
    ensures GoodFields(Put(fs, us))
    decreases |us|
  {
    if us != [] {
      InsertGood(fs, us[0].lbl, us[0].val);
      PutGood(Insert(fs, us[0].lbl, us[0].val), us[1..]);
    }
  }

  lemma {:induction false} MatchGood(p: Shape, v: Term)
    requires GoodValue(v)
    ensures Match(p, v).Just? ==> AllGood(Match(p, v).value)
  {
    match p
    case SCon(c, _, args) =>
      if v.op.OCon? {
        BodiesGood(v);
        if |v.kids| == |args| { MatchAllGood(args, Bodies(v.kids)); }
      }
    case SRecord(fs) =>
      if v.op.ORecord? {
        FieldsGood(v);
        MatchFieldsGood(fs, FieldsOf(v));
      }
    case SLabel(_, _) => if v.op.OVariant? { BodiesGood(v); }
    case _ =>
  }

  lemma {:induction false} MatchAllGood(ps: seq<Shape>, vs: seq<Term>)
    requires |ps| == |vs| && AllGood(vs)
    ensures MatchAll(ps, vs).Just? ==> AllGood(MatchAll(ps, vs).value)
  {
    if ps != [] {
      MatchGood(ps[0], vs[0]);
      MatchAllGood(ps[1..], vs[1..]);
    }
  }

  lemma {:induction false} MatchFieldsGood(ps: seq<SField>, fs: seq<Fd<Term>>)
    requires GoodFields(fs)
    ensures MatchFields(ps, fs).Just? ==> AllGood(MatchFields(ps, fs).value)
  {
    if ps != [] {
      if Get(fs, ps[0].lbl).Just? {
        GetSome(fs, ps[0].lbl);
        assert ps[0].pat < ps[0];
        MatchGood(ps[0].pat, Get(fs, ps[0].lbl).value);
      }
      MatchFieldsGood(ps[1..], fs);
    }
  }

  lemma {:induction false} GroundIsGood(v: Term)
    requires GroundValue(v)
    ensures GoodValue(v)
  {
    forall i | 0 <= i < |v.kids| ensures GoodValue(v.kids[i].body) {
      assert v.kids[i].body < v.kids[i];
      GroundIsGood(v.kids[i].body);
    }
    if v.op.ORecord? {
      GetPut([], FieldsOf(v), "");
    }
  }

  // ---- One step ----

  ghost predicate GoodNext(next: Next) {
    match next
    case Done(v) => GoodValue(v)
    case Go(b, us) => Closed(b, |us|) && AllClosed(us)
    case Stuck => true
  }

  lemma PrimGood(w: World, op: Op, vs: seq<Term>)
    requires op.OPrim? && AllGood(vs)
    ensures GoodNext(PrimResult(w, op, vs))
  {
    if Deferred(op, |vs|) {
      ArgsGood(op, vs);
    } else if PrimResult(w, op, vs).Done? {
      GroundIsGood(PrimResult(w, op, vs).v);
    }
  }

  lemma ApplyGood(w: World, f: Term, a: Term)
    requires GoodValue(f) && GoodValue(a)
    ensures GoodNext(ApplyStep(w, f, a))
  {
    assert KidsClosed(f.kids, 0);
    if f.op.OCon? {
      BodiesGood(f);
      ArgsGood(f.op, Bodies(f.kids) + [a]);
    } else if f.op.OPrim? {
      BodiesGood(f);
      PrimGood(w, f.op, Bodies(f.kids) + [a]);
    }
  }

  lemma CaseGood(ps: seq<Shape>, v: Term, alts: seq<Kid>)
    requires GoodValue(v) && KidsClosed(alts, 0)
    ensures GoodNext(CaseStep(ps, v, alts))
  {
    var c := FirstMatch(ps, v, 0);
    if c.Choice? { MatchGood(ps[c.index], v); }
  }

  lemma PairGood(vs: seq<Term>)
    requires AllGood(vs) && |vs| == 2
    ensures GoodValue(Node(ORecord(["_1", "_2"]), Args(vs)))
  {
    var fs := Zip(["_1", "_2"], vs);
    var ls := LabelsOf(fs);
    assert "_1"[1..] == "1" && "_2"[1..] == "2" && Less("1", "2");
    assert ls == ["_1", "_2"] && Less("_1", "_2");
    assert ValuesOf(fs) == vs;
    RecordGood(fs);
  }

  lemma ZipGood(ls: seq<string>, vs: seq<Term>)
    requires |ls| == |vs| && AllGood(vs)
    ensures GoodFields(Zip(ls, vs))
  {
  }

  lemma FinishGood(w: World, op: Op, vs: seq<Term>, rest: seq<Kid>)
    requires AllGood(vs) && KidsClosed(rest, 0)
    ensures GoodNext(Finish(w, op, vs, rest))
  {
    match op
    case OFix => assert Closed(Node(op, rest), 0);
    case OForce => if |vs| == 1 { assert KidsClosed(vs[0].kids, 0); }
    case OApp => if |vs| == 2 { ApplyGood(w, vs[0], vs[1]); }
    case OCon(_, _) => ArgsGood(op, vs);
    case OVariant(_) => if |vs| == 1 { ArgsGood(op, vs); }
    case OPrim(_, _, _) => PrimGood(w, op, vs);
    case OCase(ps) => if |vs| == 1 { CaseGood(ps, vs[0], rest); }
    case OMerge(_, _) => if |vs| == 2 { PairGood(vs); }
    case ORecord(ls) =>
      if |ls| == |vs| && Uniq(ls) {
        ZipGood(ls, vs);
        PutGood([], Zip(ls, vs));
        GetPut([], Zip(ls, vs), "");
        RecordGood(Put([], Zip(ls, vs)));
      }
    case OProj(l) =>
      if |vs| == 1 && vs[0].op.ORecord? {
        FieldsGood(vs[0]);
        if Get(FieldsOf(vs[0]), l).Just? { GetSome(FieldsOf(vs[0]), l); }
      }
    case OUpdate(ls) =>
      if |vs| == 1 + |ls| && Uniq(ls) && vs[0].op.ORecord? {
        FieldsGood(vs[0]);
        ZipGood(ls, vs[1..]);
        PutGood(FieldsOf(vs[0]), Zip(ls, vs[1..]));
        GetPut(FieldsOf(vs[0]), Zip(ls, vs[1..]), "");
        RecordGood(Put(FieldsOf(vs[0]), Zip(ls, vs[1..])));
      }
    case _ =>
  }

  /** Evaluation of a closed term gives a closed value. */
  lemma {:induction false} EvGood(w: World, n: nat, t: Term)
    requires WorldOk(w) && Closed(t, 0)
    ensures Ev(w, n, t).Just? ==> GoodValue(Ev(w, n, t).value)
    decreases n, 1, t
  {
    if t.Node? {
      var k := Strict(t.op, |t.kids|);
      EvAllGood(w, n, t.kids, k);
      if EvAll(w, n, t.kids, k).Just? {
        var vs := EvAll(w, n, t.kids, k).value;
        FinishGood(w, t.op, vs, t.kids[k..]);
        RunGood(w, n, Finish(w, t.op, vs, t.kids[k..]));
      }
    }
  }

  lemma {:induction false} EvAllGood(w: World, n: nat, kids: seq<Kid>, k: nat)
    requires WorldOk(w) && KidsClosed(kids, 0) && k <= |kids|
    ensures EvAll(w, n, kids, k).Just? ==> AllGood(EvAll(w, n, kids, k).value)
    decreases n, 1, kids, k
  {
    if k > 0 {
      assert kids[k - 1].body < kids[k - 1];
      EvAllGood(w, n, kids, k - 1);
      if kids[k - 1].binds == 0 { EvGood(w, n, kids[k - 1].body); }
    }
  }

  lemma {:induction false} RunGood(w: World, n: nat, next: Next)
    requires WorldOk(w) && GoodNext(next)
    ensures Run(w, n, next).Just? ==> GoodValue(Run(w, n, next).value)
    decreases n, 0
  {
    if next.Go? && n > 0 {
      InstClosed(next.body, next.args, 0);
      EvGood(w, n - 1, Instantiate(next.body, next.args));
    }
  }

  /** A value is its own result, with any fuel. */
  lemma {:induction false} EvValue(w: World, n: nat, v: Term)
    requires IsValue(v)
    ensures Ev(w, n, v) == Just(v)
    decreases v
  {
    var k := Strict(v.op, |v.kids|);
    if v.op.OLam? || v.op.OThunk? || v.op.OLit? {
      assert v.kids[0..] == v.kids;
    } else {
      assert KidsAreValues(v.kids);
      var vs := Bodies(v.kids);
      forall i | 0 <= i < |vs| ensures v.kids[i].binds == 0 && Ev(w, n, v.kids[i].body) == Just(vs[i]) {
        assert v.kids[i].body < v.kids[i];
        EvValue(w, n, v.kids[i].body);
      }
      EvAllFrom(w, n, v.kids, k, vs);
      assert Args(vs) == v.kids;
      if v.op.ORecord? {
        SortedDistinct(FieldsOf(v));
        PutSorted(FieldsOf(v));
        assert LabelsOf(FieldsOf(v)) == v.op.labels && ValuesOf(FieldsOf(v)) == vs;
      }
    }
  }
}
