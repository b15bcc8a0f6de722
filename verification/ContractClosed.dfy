/**
  Contractions introduce no new indices.
 */
module ContractClosed {
  import opened Nameless
  import opened Records
  import opened Eval
  import opened EvalFacts
  import opened Contract

  ghost predicate EachClosed(us: seq<Term>, c: nat) { forall i :: 0 <= i < |us| ==> Closed(us[i], c) }

  lemma {:induction false} ShiftRange(t: Term, k: nat, d: nat, c: nat)
    requires Closed(t, c + d)
    ensures Closed(Shift(t, k, d), c + k + d)
  {
    if t.Node? {
      var kids' := ShiftKids(t.kids, k, d);
      forall i | 0 <= i < |t.kids| ensures Closed(kids'[i].body, c + k + d + kids'[i].binds) {
        assert t.kids[i].body < t.kids[i];
        var b := t.kids[i].binds;
        assert c + d + b == c + (d + b) && c + k + d + b == c + k + (d + b);
        ShiftRange(t.kids[i].body, k, d + b, c);
      }
    }
  }

  lemma {:induction false} InstRange(t: Term, us: seq<Term>, d: nat, c: nat)
    requires Closed(t, c + |us| + d) && EachClosed(us, c)
    ensures Closed(Act(t, Inst(us), d), c + d)
  {
    match t
    case Bound(i) => if d <= i < d + |us| { ShiftRange(us[i - d], d, 0, c); }
    case Free(_) =>
    case Node(_, kids) =>
      var kids' := ActKids(kids, Inst(us), d);
      forall i | 0 <= i < |kids| ensures Closed(kids'[i].body, c + d + kids'[i].binds) {
        assert kids[i].body < kids[i];
        var b := kids[i].binds;
        assert c + |us| + d + b == c + |us| + (d + b) && c + d + b == c + (d + b);
        InstRange(kids[i].body, us, d + b, c);
      }
  }

  lemma KidClosed(t: Term, c: nat, i: nat)
    requires t.Node? && Closed(t, c) && i < |t.kids|
    ensures Closed(t.kids[i].body, c + t.kids[i].binds)
  {
  }

  lemma FieldClosed(s: Term, c: nat, l: string)
    requires IsLiteralRecord(s) && Closed(s, c) && Get(FieldsOf(s), l).Just?
    ensures Closed(Get(FieldsOf(s), l).value, c)
  {
    GetSome(FieldsOf(s), l);
    var i :| 0 <= i < |FieldsOf(s)| && FieldsOf(s)[i].lbl == l && FieldsOf(s)[i].val == Get(FieldsOf(s), l).value;
    assert FieldsOf(s)[i].val == s.kids[i].body;
    KidClosed(s, c, i);
  }

  lemma {:induction false} CollectsClosed(p: Shape, s: Term, cs: seq<Term>, c: nat)
    requires Collects(p, s, cs) && Closed(s, c)
    ensures EachClosed(cs, c)
  {
    match p
    case SCon(_, _, args) =>
      forall i | 0 <= i < |s.kids| ensures Closed(Bodies(s.kids)[i], c) { KidClosed(s, c, i); }
      CollectsAllClosed(args, Bodies(s.kids), cs, c);
    case SRecord(fs) => CollectsFieldsClosed(fs, s, cs, c);
    case _ =>
  }

  lemma {:induction false} CollectsAllClosed(ps: seq<Shape>, ss: seq<Term>, cs: seq<Term>, c: nat)
    requires |ps| == |ss| && CollectsAll(ps, ss, cs) && EachClosed(ss, c)
    ensures EachClosed(cs, c)
  {
    if ps != [] {
      var k := Width(ps[0]);
      CollectsClosed(ps[0], ss[0], cs[..k], c);
      CollectsAllClosed(ps[1..], ss[1..], cs[k..], c);
      assert cs == cs[..k] + cs[k..];
    }
  }

  lemma {:induction false} CollectsFieldsClosed(ps: seq<SField>, s: Term, cs: seq<Term>, c: nat)
    requires CollectsFields(ps, s, cs) && Closed(s, c)
    ensures EachClosed(cs, c)
  {
    if ps != [] {
      assert ps[0].pat < ps[0];
      var k, l := Width(ps[0].pat), ps[0].lbl;
      CollectsFieldsClosed(ps[1..], s, cs[k..], c);
      if Collects(ps[0].pat, ProjOf(s, l), cs[..k]) {
        assert Closed(ProjOf(s, l), c) by { assert c + 0 == c; }
        CollectsClosed(ps[0].pat, ProjOf(s, l), cs[..k], c);
      } else {
        FieldClosed(s, c, l);
        CollectsClosed(ps[0].pat, Get(FieldsOf(s), l).value, cs[..k], c);
      }
      assert cs == cs[..k] + cs[k..];
    }
  }

  lemma SubstitutiveClosed(u: Term, t: Term, c: nat)
    requires Substitutive(u, t) && Closed(u, c)
    ensures Closed(t, c)
  {
    hide Collects, Picks, Act;
    KidClosed(u, c, 0);
    if Beta(u, t) {
      var f := u.kids[0].body;
      KidClosed(f, c, 0);
      KidClosed(u, c, 1);
      InstRange(f.kids[0].body, [u.kids[1].body], 0, c);
    } else if BindPure(u, t) {
      KidClosed(u.kids[0].body, c, 0);
      KidClosed(u, c, 1);
      InstRange(u.kids[1].body, [u.kids[0].body.kids[0].body], 0, c);
    } else {
      var i: nat, cs :| KnownCaseAt(u, t, i, cs);
      KidClosed(u, c, i + 1);
      CollectsClosed(u.op.pats[i], u.kids[0].body, cs, c);
      InstRange(u.kids[i + 1].body, Rev(cs), 0, c);
    }
  }

  lemma UpdatesClosed(u: Term, c: nat)
    requires IsUpdate(u) && Closed(u, c)
    ensures Closed(u.kids[0].body, c) && EachClosed(ValuesOf(UpdatesOf(u)), c)
  {
    KidClosed(u, c, 0);
    forall i | 0 <= i < |UpdatesOf(u)| ensures Closed(UpdatesOf(u)[i].val, c) { KidClosed(u, c, i + 1); }
  }

  lemma UpdateChainClosed(u: Term, t: Term, c: nat)
    requires UpdateChain(u, t) && Closed(u, c)
    ensures Closed(t, c)
  {
    hide Closed;
    var inner := u.kids[0].body;
    UpdatesClosed(u, c);
    UpdatesClosed(inner, c);
    var ins, outs := UpdatesOf(inner), UpdatesOf(u);
    var fs := Unshadowed(ins, u.op.labels) + outs;
    GetUnshadowed(ins, u.op.labels, "");
    forall i | 0 <= i < |fs| ensures Closed(fs[i].val, c) {
      if i < |fs| - |outs| {
        assert fs[i] in ins;
        var j :| 0 <= j < |ins| && ins[j] == fs[i];
        assert ValuesOf(ins)[j] == fs[i].val;
      } else {
        assert fs[i] == outs[i - (|fs| - |outs|)];
        assert ValuesOf(outs)[i - (|fs| - |outs|)] == fs[i].val;
      }
    }
    UpdateNodeClosed(inner.kids[0].body, fs, c);
  }

  lemma UpdateNodeClosed(r: Term, fs: seq<Fd<Term>>, c: nat)
    requires Closed(r, c) && forall i :: 0 <= i < |fs| ==> Closed(fs[i].val, c)
    ensures Closed(UpdateNode(r, fs), c)
  {
    var kids := [Kid(0, r)] + Args(ValuesOf(fs));
    forall i | 0 <= i < |kids| ensures Closed(kids[i].body, c + kids[i].binds) {
      if i > 0 { assert kids[i] == Kid(0, fs[i - 1].val); }
    }
  }

  lemma CommuteCaseClosed(u: Term, t: Term, c: nat)
    requires CommuteCase(u, t) && Closed(u, c)
    ensures Closed(t, c)
  {
    hide Closed, Shift;
    var q, rest := u.kids[0].body, u.kids[1..];
    var alts := q.kids[1..];
    KidClosed(u, c, 0);
    KidClosed(q, c, 0);
    forall i | 0 <= i < |alts| ensures Closed(Pushed(u.op, alts, rest)[i].body, c + alts[i].binds) {
      KidClosed(q, c, i + 1);
      PushedClosed(u.op, alts[i], rest, c) by {
        forall j | 0 <= j < |rest| ensures Closed(rest[j].body, c + rest[j].binds) { KidClosed(u, c, j + 1); }
      }
    }
    NodeClosed(t.op, t.kids, c);
  }

  lemma NodeClosed(op: Op, kids: seq<Kid>, c: nat)
    requires forall i :: 0 <= i < |kids| ==> Closed(kids[i].body, c + kids[i].binds)
    ensures Closed(Node(op, kids), c)
  {
  }

  lemma PushedClosed(op: Op, alt: Kid, rest: seq<Kid>, c: nat)
    requires Closed(alt.body, c + alt.binds)
    requires forall j :: 0 <= j < |rest| ==> Closed(rest[j].body, c + rest[j].binds)
    ensures Closed(Node(op, [Kid(0, alt.body)] + ShiftKids(rest, alt.binds, 0)), c + alt.binds)
  {
    hide Closed, Shift;
    var kids := [Kid(0, alt.body)] + ShiftKids(rest, alt.binds, 0);
    forall i | 0 <= i < |kids| ensures Closed(kids[i].body, c + alt.binds + kids[i].binds) {
      if i > 0 { ShiftRange(rest[i - 1].body, alt.binds, rest[i - 1].binds, c); }
    }
    NodeClosed(op, kids, c + alt.binds);
  }

  lemma ContractsClosed(u: Term, t: Term, c: nat)
    requires Contracts(u, t) && Closed(u, c)
    ensures Closed(t, c)
  {
    hide Substitutive, Closed, CommuteCase, UpdateChain;
    if Substitutive(u, t) {
      SubstitutiveClosed(u, t, c);
    } else if ForceThunk(u, t) {
      KidClosed(u, c, 0);
      KidClosed(u.kids[0].body, c, 0);
    } else if ProjKnown(u, t) {
      KidClosed(u, c, 0);
      FieldClosed(u.kids[0].body, c, u.op.lbl);
    } else if UpdateChain(u, t) {
      UpdateChainClosed(u, t, c);
    } else if PrimAbsorb(u, t) {
      PrimAbsorbClosed(u, t, c);
    } else {
      CommuteCaseClosed(u, t, c);
    }
  }

  lemma PrimAbsorbClosed(u: Term, t: Term, c: nat)
    requires PrimAbsorb(u, t) && Closed(u, c)
    ensures Closed(t, c)
  {
    KidClosed(u, c, 0);
  }
}
