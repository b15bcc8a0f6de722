/**
  Each contraction in both directions: when the contractum evaluates, exactly
  what else has to evaluate for the redex to do so.
 */
module ContractIff {
  import opened Nameless
  import opened Records
  import opened Eval
  import opened EvalFacts
  import opened Contract
  import opened ContractClosed
  import opened ContractEval
  import opened Refine
  import opened Simulate

  /** With enough fuel, `t` evaluates to `v`. */
  ghost predicate Yields(w: World, t: Term, v: Term) { exists n: nat :: Ev(w, n, t) == Just(v) }

  ghost predicate Evaluates(w: World, t: Term) { exists v :: Yields(w, t, v) }

  // ---- Contractions that change nothing ----

  lemma ForceThunkIff(w: World, u: Term, t: Term, v: Term)
    requires ForceThunk(u, t)
    ensures Yields(w, u, v) <==> Yields(w, t, v)
  {
    if Yields(w, u, v) {
      var n: nat :| Ev(w, n, u) == Just(v);
      ForceThunkEval(w, n, u, t);
    }
    if Yields(w, t, v) {
      var n: nat :| Ev(w, n, t) == Just(v);
      ForceThunkBack(w, n, u, t);
    }
  }

  lemma ForceThunkBack(w: World, n: nat, u: Term, t: Term)
    requires ForceThunk(u, t)
    ensures Ev(w, n + 1, u) == Ev(w, n, t)
  {
    hide Ev;
    var c := u.kids[0].body;
    EvIntro(w, n + 1, c.op, c.kids, []);
    assert c.kids[0..] == c.kids;
    EvIntro(w, n + 1, u.op, u.kids, [c]);
    InstNil(t);
  }

  lemma PrimAbsorbIff(w: World, u: Term, t: Term, v: Term)
    requires PrimAbsorb(u, t)
    ensures Yields(w, u, v) <==> Yields(w, t, v)
  {
    if Yields(w, u, v) {
      var n: nat :| Ev(w, n, u) == Just(v);
      PrimAbsorbEval(w, n, u, t);
    }
    if Yields(w, t, v) {
      var n: nat :| Ev(w, n, t) == Just(v);
      PrimAbsorbBack(w, n, u, t);
    }
  }

  lemma PrimAbsorbBack(w: World, n: nat, u: Term, t: Term)
    requires PrimAbsorb(u, t) && Ev(w, n, t).Just?
    ensures Ev(w, n, u) == Ev(w, n, t)
  {
    hide Ev;
    var p, k := u.kids[0].body, |u.kids[0].body.kids|;
    var c, vs := EvNode(w, n, t);
    forall i | 0 <= i < |vs| ensures t.kids[i].binds == 0 && Ev(w, n, t.kids[i].body) == Just(vs[i]) { EvAllAt(w, n, t.kids, c, i); }
    var ps := vs[..k];
    EvIntro(w, n, p.op, p.kids, ps);
    assert Bodies(Args(ps)) == ps && ps + [vs[k]] == vs;
    EvIntro(w, n, u.op, u.kids, [Node(p.op, Args(ps)), vs[k]]);
  }

  lemma CommuteCaseIff(w: World, u: Term, t: Term, v: Term)
    requires CommuteCase(u, t)
    ensures Yields(w, u, v) <==> Yields(w, t, v)
  {
    hide CommuteCase;
    if Yields(w, u, v) {
      var n: nat :| Ev(w, n, u) == Just(v);
      CommuteCaseEval(w, n, u, t);
    }
    if Yields(w, t, v) {
      var n: nat :| Ev(w, n, t) == Just(v);
      CommuteCaseBack(w, n, u, t);
    }
  }

  /** How a case evaluates. */
  lemma CaseRun(w: World, n: nat, t: Term) returns (v: Term, i: nat, us: seq<Term>)
    requires IsCase(t) && Ev(w, n, t).Just?
    ensures Ev(w, n, t.kids[0].body) == Just(v) && FirstMatch(t.op.pats, v, 0) == Choice(i, us)
    ensures i < |t.op.pats| && t.kids[i + 1].binds == |us| && n > 0
    ensures Ev(w, n, t) == Ev(w, n - 1, Instantiate(t.kids[i + 1].body, Rev(us)))
  {
    var j, vs := EvNode(w, n, t);
    EvAllAt(w, n, t.kids, j, 0);
    v := vs[0];
    var c := FirstMatch(t.op.pats, v, 0);
    i, us := c.index, c.bound;
    assert t.kids[1..][i] == t.kids[i + 1];
  }

  lemma CommuteCaseBack(w: World, n: nat, u: Term, t: Term)
    requires CommuteCase(u, t) && Ev(w, n, t).Just?
    ensures Ev(w, n, u) == Ev(w, n, t)
  {
    hide Ev, FirstMatch;
    var q, rest := u.kids[0].body, u.kids[1..];
    var alts := q.kids[1..];
    var v, i, us := CaseRun(w, n, t);
    var pushed := Pushed(u.op, alts, rest);
    assert t.kids[i + 1] == pushed[i] && pushed[i].binds == alts[i].binds && alts[i] == q.kids[i + 1];
    PushedInst(u.op, alts, rest, i, Rev(us));
    var b := Instantiate(alts[i].body, Rev(us));
    var inner := Node(u.op, [Kid(0, b)] + rest);
    HeadSooner(w, n - 1, u.op, b, rest);
    EvMono(w, n - 1, n, inner);
    EvIntro(w, n, q.op, q.kids, [v]);
    assert q.kids[1..][i] == q.kids[i + 1];
    FrameEval(w, n, u.op, q, b, rest);
    assert u.kids == [Kid(0, q)] + rest;
  }

  /** When a case or bind evaluates, what it continues does. */
  lemma HeadSooner(w: World, n: nat, op: Op, b: Term, rest: seq<Kid>)
    requires (op.OCase? || op.OBind?) && Ev(w, n, Node(op, [Kid(0, b)] + rest)).Just?
    ensures Ev(w, n, b).Just?
  {
    var u := Node(op, [Kid(0, b)] + rest);
    var k, vs := EvNode(w, n, u);
    EvAllAt(w, n, u.kids, k, 0);
  }

  // ---- Contractions that drop evaluation ----

  ghost predicate AllEvaluate(w: World, kids: seq<Kid>) {
    forall i :: 0 <= i < |kids| ==> kids[i].binds == 0 && Evaluates(w, kids[i].body)
  }

  /** Children that evaluate do so with one fuel. */
  lemma {:induction false} Gather(w: World, kids: seq<Kid>, k: nat) returns (n: nat, vs: seq<Term>)
    requires k <= |kids| && AllEvaluate(w, kids[..k])
    ensures EvAll(w, n, kids, k) == Just(vs)
  {
    n, vs := 0, [];
    if k > 0 {
      assert kids[..k - 1] == kids[..k][..k - 1];
      var m, us := Gather(w, kids, k - 1);
      assert kids[..k][k - 1] == kids[k - 1];
      var v :| Yields(w, kids[k - 1].body, v);
      var i: nat :| Ev(w, i, kids[k - 1].body) == Just(v);
      n := m + i;
      EvAllMono(w, m, n, kids, k - 1);
      EvMono(w, i, n, kids[k - 1].body);
      vs := us + [v];
    }
  }

  /** The children evaluated with one fuel evaluate each by itself. */
  lemma Scatter(w: World, n: nat, kids: seq<Kid>, k: nat)
    requires k <= |kids| && EvAll(w, n, kids, k).Just?
    ensures AllEvaluate(w, kids[..k])
  {
    hide Ev;
    forall i | 0 <= i < k ensures kids[i].binds == 0 && Evaluates(w, kids[i].body) {
      EvAllAt(w, n, kids, k, i);
      assert Yields(w, kids[i].body, EvAll(w, n, kids, k).value[i]);
    }
  }

  lemma Agree(w: World, t: Term, v: Term, v': Term)
    requires Yields(w, t, v) && Yields(w, t, v')
    ensures v == v'
  {
    var n: nat :| Ev(w, n, t) == Just(v);
    var m: nat :| Ev(w, m, t) == Just(v');
    EvAgree(w, n, m, t);
  }

  lemma LiteralRecordIff(w: World, s: Term)
    requires IsLiteralRecord(s)
    ensures Evaluates(w, s) <==> Uniq(s.op.labels) && AllEvaluate(w, s.kids)
  {
    hide Ev, Uniq, AllEvaluate;
    if Evaluates(w, s) {
      var v :| Yields(w, s, v);
      var n: nat :| Ev(w, n, s) == Just(v);
      LiteralParts(w, n, s);
    }
    if Uniq(s.op.labels) && AllEvaluate(w, s.kids) { LiteralBack(w, s); }
  }

  lemma LiteralParts(w: World, n: nat, s: Term)
    requires IsLiteralRecord(s) && Ev(w, n, s).Just?
    ensures Uniq(s.op.labels) && AllEvaluate(w, s.kids)
  {
    hide Ev, Uniq, AllEvaluate;
    var k, _ := EvNode(w, n, s);
    var _ := LiteralRecord(w, n, s);
    Scatter(w, n, s.kids, k);
    assert s.kids[..k] == s.kids;
  }

  lemma LiteralBack(w: World, s: Term)
    requires IsLiteralRecord(s) && Uniq(s.op.labels) && AllEvaluate(w, s.kids)
    ensures Evaluates(w, s)
  {
    hide Ev, Put, Uniq, AllEvaluate;
    var k := |s.kids|;
    assert s.kids[..k] == s.kids;
    var n, vs := Gather(w, s.kids, k);
    forall i | 0 <= i < k ensures Ev(w, n, s.kids[i].body) == Just(vs[i]) { EvAllAt(w, n, s.kids, k, i); }
    EvIntro(w, n, s.op, s.kids, vs);
    assert Yields(w, s, RecordOf(Put([], Zip(s.op.labels, vs))));
  }

  /** Taking a field of a record literal drops the other fields. */
  lemma ProjKnownIff(w: World, u: Term, t: Term, v: Term)
    requires ProjKnown(u, t)
    ensures var s := u.kids[0].body;
      Yields(w, u, v) <==> Yields(w, t, v) && Uniq(s.op.labels) && AllEvaluate(w, s.kids)
  {
    hide Ev;
    var s := u.kids[0].body;
    LiteralRecordIff(w, s);
    if Yields(w, u, v) {
      var n: nat :| Ev(w, n, u) == Just(v);
      ProjKnownEval(w, n, u, t);
      var k, vs := EvNode(w, n, u);
      EvAllAt(w, n, u.kids, k, 0);
      assert Yields(w, s, vs[0]);
    }
    if Yields(w, t, v) && Uniq(s.op.labels) && AllEvaluate(w, s.kids) {
      var sv :| Yields(w, s, sv);
      var n: nat :| Ev(w, n, s) == Just(sv);
      LiteralField(w, n, s, u.op.lbl);
      ProjEval(w, n, s, u.op.lbl);
      assert u == ProjOf(s, u.op.lbl);
      assert Yields(w, t, Ev(w, n, t).value);
      Agree(w, t, v, Ev(w, n, t).value);
    }
  }

  /** Merging two updates drops the inner fields that the outer ones shadow. */
  lemma UpdateChainIff(w: World, u: Term, t: Term, v: Term)
    requires WorldOk(w) && Closed(u, 0) && UpdateChain(u, t)
    ensures var inner := u.kids[0].body;
      Yields(w, u, v) <==> Yields(w, t, v) && Uniq(inner.op.labels) && AllEvaluate(w, inner.kids[1..])
  {
    hide Ev, Closed, WorldOk;
    var inner := u.kids[0].body;
    if Yields(w, u, v) {
      var n: nat :| Ev(w, n, u) == Just(v);
      UpdateChainEval(w, n, u, t);
      var _, _ := UpdateParts(w, n, u);
      var _, _ := UpdateParts(w, n, inner);
      var k, _ := EvNode(w, n, inner);
      Scatter(w, n, inner.kids, k);
      assert inner.kids[..k] == inner.kids;
    }
    if Yields(w, t, v) && Uniq(inner.op.labels) && AllEvaluate(w, inner.kids[1..]) {
      UpdateChainBack(w, u, t, v);
      var v' :| Yields(w, u, v');
      var n: nat :| Ev(w, n, u) == Just(v');
      UpdateChainEval(w, n, u, t);
      assert Yields(w, t, v');
      Agree(w, t, v, v');
    }
  }

  /** An update of a record evaluates once its fields do. */
  lemma UpdateEvaluates(w: World, u: Term, r: Term)
    requires IsUpdate(u) && Uniq(u.op.labels) && AllEvaluate(w, u.kids[1..])
    requires Yields(w, u.kids[0].body, r) && r.Node? && r.op.ORecord? && |r.op.labels| == |r.kids|
    ensures exists fs :: Yields(w, u, RecordOf(fs))
  {
    hide Ev;
    var k := |u.kids|;
    forall i | 0 <= i < k ensures u.kids[i].binds == 0 && Evaluates(w, u.kids[i].body) {
      if i > 0 { assert u.kids[i] == u.kids[1..][i - 1]; }
    }
    assert u.kids[..k] == u.kids;
    var n, vs := Gather(w, u.kids, k);
    forall i | 0 <= i < k ensures Ev(w, n, u.kids[i].body) == Just(vs[i]) { EvAllAt(w, n, u.kids, k, i); }
    assert Yields(w, u.kids[0].body, vs[0]);
    Agree(w, u.kids[0].body, r, vs[0]);
    EvIntro(w, n, u.op, u.kids, vs);
    assert Yields(w, u, RecordOf(Put(FieldsOf(r), Zip(u.op.labels, vs[1..]))));
  }

  lemma UpdateChainBack(w: World, u: Term, t: Term, v: Term)
    requires UpdateChain(u, t) && Yields(w, t, v)
    requires var inner := u.kids[0].body; Uniq(inner.op.labels) && AllEvaluate(w, inner.kids[1..])
    ensures Evaluates(w, u)
  {
    hide Ev, Uniq, AllEvaluate, RecordOf, Put;
    var inner := u.kids[0].body;
    var n: nat :| Ev(w, n, t) == Just(v);
    var rest := Unshadowed(UpdatesOf(inner), u.op.labels);
    MergedShape(t, inner.kids[0].body, rest, u);
    var r := MergedParts(w, n, t, |rest|, u);
    UpdateEvaluates(w, inner, r);
    var fs :| Yields(w, inner, RecordOf(fs));
    RecordShape(fs);
    UpdateEvaluates(w, u, RecordOf(fs));
  }

  lemma RecordShape(fs: seq<Fd<Term>>)
    ensures var r := RecordOf(fs); r.Node? && r.op.ORecord? && |r.op.labels| == |r.kids|
  {
  }

  lemma MergedShape(t: Term, r: Term, rest: seq<Fd<Term>>, u: Term)
    requires IsUpdate(u) && t == UpdateNode(r, rest + UpdatesOf(u))
    ensures IsUpdate(t) && t.kids[0].body == r && |t.kids| == |rest| + |u.kids|
    ensures t.op.labels[|rest|..] == u.op.labels && t.kids[1 + |rest|..] == u.kids[1..]
  {
  }

  /** What the merged update evaluates that the outer one does too. */
  lemma MergedParts(w: World, n: nat, t: Term, k: nat, u: Term) returns (r: Term)
    requires IsUpdate(t) && IsUpdate(u) && |t.kids| == k + |u.kids| && Ev(w, n, t).Just?
    requires t.op.labels[k..] == u.op.labels && t.kids[1 + k..] == u.kids[1..]
    ensures Yields(w, t.kids[0].body, r) && r.Node? && r.op.ORecord? && |r.op.labels| == |r.kids|
    ensures Uniq(u.op.labels) && AllEvaluate(w, u.kids[1..])
  {
    hide Ev, Put, Evaluates;
    var us;
    r, us := UpdateParts(w, n, t);
    var c, _ := EvNode(w, n, t);
    Scatter(w, n, t.kids, c);
    forall i | 0 <= i < |u.kids| - 1 ensures u.kids[1..][i].binds == 0 && Evaluates(w, u.kids[1..][i].body) {
      assert t.kids[..c][1 + k + i] == t.kids[1 + k..][i];
    }
    forall i, j | 0 <= i < j < |u.op.labels| ensures u.op.labels[i] != u.op.labels[j] {
      assert t.op.labels[k..][i] == t.op.labels[k + i] && t.op.labels[k..][j] == t.op.labels[k + j];
    }
  }

  // ---- Contractions that substitute unevaluated terms ----

  /** The strict parts of a node evaluate and lead into a body. */
  ghost predicate Enters(w: World, n: nat, u: Term, b: Term, us: seq<Term>) {
    u.Node? && var k := Strict(u.op, |u.kids|);
      EvAll(w, n, u.kids, k).Just? && Finish(w, u.op, EvAll(w, n, u.kids, k).value, u.kids[k..]) == Go(b, us)
  }

  ghost predicate Begins(w: World, u: Term) { exists n: nat, b, us :: Enters(w, n, u, b, us) }

  /** A term reaches a value related to any value of a term that steps to it. */
  lemma Forward(w: World, u: Term, t: Term, v: Term) returns (v': Term)
    requires WorldOk(w) && Closed(u, 0) && Contracts(u, t) && Yields(w, u, v)
    ensures Yields(w, t, v') && (Ground(v) ==> v' == v)
  {
    hide Ev, Closed, Contracts, Ground, Cong, WorldOk, Worlds;
    var n: nat :| Ev(w, n, u) == Just(v);
    var s := Both(w);
    var k := CongRefl(s, u);
    assert Contracted(s, k, u, t);
    SameWorld(w);
    var m, j := Sim(s, n, k + 1, u, t);
    v' := Ev(w, m, t).value;
    ContractsClosed(u, t, 0);
    EvGood(w, n, u);
    EvGood(w, m, t);
    if Ground(v) { GroundSame(s, j, v, v'); }
  }

  /** Filled with values instead of the terms that evaluate to them, a body
      evaluates as before. */
  lemma FillBack(w: World, n: nat, b: Term, cs: seq<Term>, us: seq<Term>, m: nat) returns (i: nat)
    requires WorldOk(w) && EvEach(w, n, cs, us) && AllClosed(cs) && AllGood(us) && Closed(b, |us|)
    requires Ev(w, m, Instantiate(b, cs)).Just?
    ensures Ev(w, i, Instantiate(b, us)).Just?
    ensures var v := Ev(w, m, Instantiate(b, cs)).value; Ground(v) ==> Ev(w, i, Instantiate(b, us)).value == v
  {
    hide Ev, Closed, Ground, Cong, WorldOk, Worlds, IsValue, Act;
    var s := Both(w);
    SameWorld(w);
    var k := EachMeets(w, n, cs, us, |cs|);
    assert cs[..|cs|] == cs && us[..|us|] == us;
    var c := CongRefl(s, b);
    SubPar(s, c + 1, k, b, b, cs, us, 0);
    InstClosed(b, cs, 0);
    InstClosed(b, us, 0);
    var j;
    i, j := Sim(s, m, c + 1 + k, Instantiate(b, cs), Instantiate(b, us));
    EvGood(w, m, Instantiate(b, cs));
    EvGood(w, i, Instantiate(b, us));
    var v := Ev(w, m, Instantiate(b, cs)).value;
    if Ground(v) { GroundSame(s, j, v, Ev(w, i, Instantiate(b, us)).value); }
  }

  lemma {:induction false} EachMeets(w: World, n: nat, cs: seq<Term>, us: seq<Term>, len: nat) returns (k: nat)
    requires EvEach(w, n, cs, us) && AllClosed(cs) && AllGood(us) && len <= |cs|
    ensures ParAll(Both(w), k, cs[..len], us[..len])
  {
    hide Ev, Closed, Cong, IsValue, Contracted;
    k := 0;
    if len > 0 {
      var s, c, u := Both(w), cs[len - 1], us[len - 1];
      var a := EachMeets(w, n, cs, us, len - 1);
      var b := CongRefl(s, u);
      k := a + b + 1;
      CongMono(s, b, k - 1, u, u);
      EvValue(w, 0, u);
      assert Ev(s.left, n, c) == Just(u) && Ev(s.right, 0, u) == Just(u);
      assert Meets(s, k - 1, c, u);
      forall i | 0 <= i < len ensures Par(s, k, cs[..len][i], us[..len][i]) {
        if i < len - 1 {
          assert cs[..len - 1][i] == cs[i] && us[..len - 1][i] == us[i];
          ParMono(s, a, k, cs[i], us[i]);
        }
      }
    }
  }

  /** A substitutive redex evaluates exactly when its contractum does and its
      own strict parts get it into the body. */
  lemma SubstitutiveIff(w: World, u: Term, t: Term, v: Term)
    requires WorldOk(w) && Closed(u, 0) && Substitutive(u, t)
    ensures Evaluates(w, u) <==> Evaluates(w, t) && Begins(w, u)
    ensures Ground(v) ==> (Yields(w, u, v) <==> Yields(w, t, v) && Begins(w, u))
  {
    hide Ev, Closed, Substitutive, Exact, Ground, WorldOk;
    assert Contracts(u, t);
    if Evaluates(w, u) {
      var x :| Yields(w, u, x);
      SubstitutiveBegins(w, u, t, x);
      var _ := Forward(w, u, t, x);
    }
    if Ground(v) && Yields(w, u, v) {
      SubstitutiveBegins(w, u, t, v);
      var _ := Forward(w, u, t, v);
    }
    if Begins(w, u) {
      if Evaluates(w, t) {
        var x :| Yields(w, t, x);
        var _ := SubstitutiveBack(w, u, t, x);
      }
      if Yields(w, t, v) { var _ := SubstitutiveBack(w, u, t, v); }
    }
  }

  lemma SubstitutiveBegins(w: World, u: Term, t: Term, v: Term)
    requires Substitutive(u, t) && Yields(w, u, v)
    ensures Begins(w, u)
  {
    hide Ev, Beta, BindPure, KnownCase, Finish;
    var n: nat :| Ev(w, n, u) == Just(v);
    SubstitutiveNode(u, t);
    var k, vs := EvNode(w, n, u);
    NeverDone(w, n, u, t, vs);
    var a := Finish(w, u.op, vs, u.kids[k..]);
    assert Enters(w, n, u, a.body, a.args);
  }

  lemma SubstitutiveNode(u: Term, t: Term)
    requires Substitutive(u, t)
    ensures u.Node? && !u.op.OFix?
  {
  }

  lemma SubstitutiveBack(w: World, u: Term, t: Term, v: Term) returns (v': Term)
    requires WorldOk(w) && Closed(u, 0) && Substitutive(u, t) && Begins(w, u) && Yields(w, t, v)
    ensures Yields(w, u, v') && (Ground(v) ==> v' == v)
  {
    hide Closed, Substitutive, Ground, WorldOk, Finish, Strict, Act;
    var n: nat, b, us :| Enters(w, n, u, b, us);
    var m: nat :| Ev(w, m, t) == Just(v);
    SubstitutiveNode(u, t);
    var k := Strict(u.op, |u.kids|);
    var vs := EvAll(w, n, u.kids, k).value;
    var cs := SubstitutiveEval(w, n, u, t, b, us);
    KidsOf(u, 0);
    EvAllGood(w, n, u.kids, k);
    FinishGood(w, u.op, vs, u.kids[k..]);
    GoArgsGood(w, u.op, vs, u.kids[k..]);
    var i := FillBack(w, n, b, cs, us, m);
    EvAllMono(w, n, n + i + 1, u.kids, k);
    EvMono(w, i, n + i, Instantiate(b, us));
    v' := Ev(w, i, Instantiate(b, us)).value;
    assert Ev(w, n + i + 1, u) == Just(v');
  }

  /** Beta: the argument has to evaluate. */
  lemma BetaIff(w: World, u: Term, t: Term, v: Term)
    requires WorldOk(w) && Closed(u, 0) && Beta(u, t)
    ensures var arg := u.kids[1].body;
      && (Evaluates(w, u) <==> Evaluates(w, t) && Evaluates(w, arg))
      && (Ground(v) ==> (Yields(w, u, v) <==> Yields(w, t, v) && Evaluates(w, arg)))
  {
    hide Ev, Closed, WorldOk, Ground;
    SubstitutiveIff(w, u, t, v);
    var f, arg := u.kids[0].body, u.kids[1].body;
    if Begins(w, u) {
      var n: nat, b, us :| Enters(w, n, u, b, us);
      Scatter(w, n, u.kids, 2);
      assert u.kids[..2][1] == u.kids[1];
    }
    if Evaluates(w, arg) {
      EvLam(w, 0, f);
      assert Yields(w, f, f);
      assert AllEvaluate(w, u.kids[..2]);
      var n, vs := Gather(w, u.kids, 2);
      EvAllAt(w, n, u.kids, 2, 0);
      EvLam(w, n, f);
      assert Enters(w, n, u, f.kids[0].body, [vs[1]]);
    }
  }

  /** Bind of pure: the computation's value has to be one that a bind goes on from. */
  lemma BindPureIff(w: World, u: Term, t: Term, v: Term)
    requires WorldOk(w) && Closed(u, 0) && BindPure(u, t)
    ensures var ok := exists x :: Yields(w, u.kids[0].body.kids[0].body, x) && !RunsEffect(x);
      && (Evaluates(w, u) <==> Evaluates(w, t) && ok)
      && (Ground(v) ==> (Yields(w, u, v) <==> Yields(w, t, v) && ok))
  {
    hide Ev, Closed, WorldOk, Ground;
    SubstitutiveIff(w, u, t, v);
    var c := u.kids[0].body;
    var e := c.kids[0].body;
    if Begins(w, u) {
      var n: nat, b, us :| Enters(w, n, u, b, us);
      EvAllAt(w, n, u.kids, 1, 0);
      PureEval(w, n, c);
      assert Yields(w, e, us[0]) && !RunsEffect(us[0]);
    }
    if x :| Yields(w, e, x) && !RunsEffect(x) {
      var n: nat :| Ev(w, n, e) == Just(x);
      EvIntro(w, n, c.op, c.kids, [x]);
      EvAllFrom(w, n, u.kids, 1, [x]);
      assert u.kids[1..][0] == u.kids[1];
      assert Enters(w, n, u, u.kids[1].body, [x]);
    }
  }

  /** Known case: the scrutinee has to evaluate, to a value of the alternative taken. */
  lemma KnownCaseIff(w: World, u: Term, t: Term, i: nat, cs: seq<Term>, v: Term)
    requires WorldOk(w) && Closed(u, 0) && KnownCaseAt(u, t, i, cs)
    ensures var ok := exists x :: Yields(w, u.kids[0].body, x) && Match(u.op.pats[i], x).Just?;
      && (Evaluates(w, u) <==> Evaluates(w, t) && ok)
      && (Ground(v) ==> (Yields(w, u, v) <==> Yields(w, t, v) && ok))
  {
    hide Ev, Closed, WorldOk, Ground, Match, Collects, Picks;
    SubstitutiveIff(w, u, t, v);
    var s := u.kids[0].body;
    if Begins(w, u) {
      var n: nat, b, us :| Enters(w, n, u, b, us);
      EvAllAt(w, n, u.kids, 1, 0);
      PickedFirst(w, n, u.op.pats, s, i);
      assert Yields(w, s, Ev(w, n, s).value);
    }
    if x :| Yields(w, s, x) && Match(u.op.pats[i], x).Just? {
      var n: nat :| Ev(w, n, s) == Just(x);
      EvAllFrom(w, n, u.kids, 1, [x]);
      PickedFirst(w, n, u.op.pats, s, i);
      CollectsEval(w, n, u.op.pats[i], s, cs);
      assert u.kids[1..][i] == u.kids[i + 1];
      assert Enters(w, n, u, u.kids[i + 1].body, Rev(Match(u.op.pats[i], x).value));
    }
  }
}
