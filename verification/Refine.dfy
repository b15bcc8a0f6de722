/**
  The optimizer's relation between terms, each in a world of its own. `Par`
  contracts any number of places at once; besides contractions it relates
  closed terms that evaluate to related values, which is what call-by-value
  needs when a rewrite has put an unevaluated term where evaluation puts its
  value, or a definition where a global was. The index bounds the depth of a
  derivation.
 */
module Refine {
  import opened Nameless
  import opened Records
  import opened Eval
  import opened EvalFacts
  import opened Contract
  import opened ContractAct

  /** The world of the left term and the world of the right term. */
  datatype Side = Side(left: World, right: World)

  ghost predicate Par(s: Side, k: nat, t: Term, t': Term)
    decreases k, 0
  {
    k > 0 && (Cong(s, k - 1, t, t') || Contracted(s, k - 1, t, t') || Meets(s, k - 1, t, t'))
  }

  ghost predicate Cong(s: Side, k: nat, t: Term, t': Term)
    decreases k, 2
  {
    if t.Node? then t'.Node? && t'.op == t.op && CongKids(s, k, t.kids, t'.kids) else t == t'
  }

  ghost predicate CongKids(s: Side, k: nat, a: seq<Kid>, b: seq<Kid>)
    decreases k, 1
  {
    |a| == |b| && forall i :: 0 <= i < |a| ==> a[i].binds == b[i].binds && Par(s, k, a[i].body, b[i].body)
  }

  ghost predicate Contracted(s: Side, k: nat, t: Term, t': Term)
    decreases k, 3
  {
    exists u :: Cong(s, k, t, u) && Contracts(u, t')
  }

  /** Both terms are closed and evaluate, to related values. */
  ghost predicate Meets(s: Side, k: nat, t: Term, t': Term)
    decreases k, 3
  {
    Closed(t, 0) && Closed(t', 0) && exists m: nat, v, m': nat, v' ::
      Ev(s.left, m, t) == Just(v) && Ev(s.right, m', t') == Just(v') && Cong(s, k, v, v')
  }

  // ---- Basic laws ----

  lemma {:induction false} ParMono(s: Side, k: nat, m: nat, t: Term, t': Term)
    requires Par(s, k, t, t') && k <= m
    ensures Par(s, m, t, t')
    decreases k, 0
  {
    hide Cong, Contracts, Ev, Closed;
    if Cong(s, k - 1, t, t') {
      CongMono(s, k - 1, m - 1, t, t');
    } else if Contracted(s, k - 1, t, t') {
      var u :| Cong(s, k - 1, t, u) && Contracts(u, t');
      CongMono(s, k - 1, m - 1, t, u);
    } else {
      var i: nat, v, i': nat, v' :| Ev(s.left, i, t) == Just(v) && Ev(s.right, i', t') == Just(v') && Cong(s, k - 1, v, v');
      CongMono(s, k - 1, m - 1, v, v');
    }
  }

  lemma {:induction false} CongMono(s: Side, k: nat, m: nat, t: Term, t': Term)
    requires Cong(s, k, t, t') && k <= m
    ensures Cong(s, m, t, t')
    decreases k, 2
  {
    if t.Node? { CongKidsMono(s, k, m, t.kids, t'.kids); }
  }

  lemma {:induction false} CongKidsMono(s: Side, k: nat, m: nat, a: seq<Kid>, b: seq<Kid>)
    requires CongKids(s, k, a, b) && k <= m
    ensures CongKids(s, m, a, b)
    decreases k, 1
  {
    forall i | 0 <= i < |a| ensures Par(s, m, a[i].body, b[i].body) { ParMono(s, k, m, a[i].body, b[i].body); }
  }

  lemma {:induction false} CongRefl(s: Side, t: Term) returns (k: nat)
    ensures Cong(s, k, t, t)
    decreases t, 0
  {
    k := 0;
    if t.Node? { k := KidsRefl(s, t, |t.kids|); }
  }

  lemma {:induction false} KidsRefl(s: Side, t: Term, n: nat) returns (k: nat)
    requires t.Node? && n <= |t.kids|
    ensures CongKids(s, k, t.kids[..n], t.kids[..n])
    ensures n == |t.kids| ==> CongKids(s, k, t.kids, t.kids)
    decreases t, 0, n
  {
    k := 0;
    if n > 0 {
      var a := KidsRefl(s, t, n - 1);
      assert t.kids[n - 1].body < t.kids[n - 1];
      var b := CongRefl(s, t.kids[n - 1].body);
      k := a + b + 1;
      CongKidsMono(s, a, k, t.kids[..n - 1], t.kids[..n - 1]);
      CongMono(s, b, k - 1, t.kids[n - 1].body, t.kids[n - 1].body);
      forall i | 0 <= i < n ensures Par(s, k, t.kids[i].body, t.kids[i].body) {
        if i < n - 1 { assert t.kids[..n - 1][i] == t.kids[i]; }
      }
    }
  }

  ghost predicate ParAll(s: Side, k: nat, us: seq<Term>, us': seq<Term>) {
    |us| == |us'| && forall i :: 0 <= i < |us| ==> Par(s, k, us[i], us'[i])
  }

  lemma ParArgs(s: Side, k: nat, op: Op, us: seq<Term>, us': seq<Term>)
    requires ParAll(s, k, us, us')
    ensures Cong(s, k, Node(op, Args(us)), Node(op, Args(us')))
  {
    assert CongKids(s, k, Args(us), Args(us'));
  }

  // ---- Values ----

  /** Related values have the same form. */
  lemma ParVal(s: Side, k: nat, v: Term, v': Term)
    requires Par(s, k, v, v') && IsValue(v) && IsValue(v')
    ensures k > 0 && Cong(s, k - 1, v, v')
  {
    if Contracted(s, k - 1, v, v') {
      var u :| Cong(s, k - 1, v, u) && Contracts(u, v');
      NoValueContracts(u, v');
    } else if Meets(s, k - 1, v, v') {
      var m: nat, x, m': nat, x' :| Ev(s.left, m, v) == Just(x) && Ev(s.right, m', v') == Just(x') && Cong(s, k - 1, x, x');
      EvValue(s.left, m, v);
      EvValue(s.right, m', v');
    }
  }

  /** First-order data is related only to itself. */
  lemma {:induction false} GroundSame(s: Side, k: nat, v: Term, v': Term)
    requires Cong(s, k, v, v') && Ground(v) && IsValue(v) && IsValue(v')
    ensures v == v'
    decreases v
  {
    assert KidsAreValues(v.kids) && KidsAreValues(v'.kids);
    forall i | 0 <= i < |v.kids| ensures v.kids[i] == v'.kids[i] {
      assert v.kids[i].body < v.kids[i];
      ParVal(s, k, v.kids[i].body, v'.kids[i].body);
      GroundSame(s, k - 1, v.kids[i].body, v'.kids[i].body);
    }
  }

  // ---- Substitution ----

  /** Related bodies filled with related closed terms are related. */
  lemma {:induction false} SubPar(s: Side, k: nat, j: nat, t: Term, t': Term, us: seq<Term>, us': seq<Term>, c: nat)
    requires Par(s, k, t, t') && ParAll(s, j, us, us') && AllClosed(us) && AllClosed(us')
    ensures Par(s, k + j, Act(t, Inst(us), c), Act(t', Inst(us'), c))
    decreases k, 0
  {
    hide Cong, Contracts, Ev, Closed, Act;
    if Cong(s, k - 1, t, t') {
      if t.Node? { SubCong(s, k - 1, j, t, t', us, us', c); } else { SubLeaf(s, k, j, t, t', us, us', c); }
    } else if Contracted(s, k - 1, t, t') {
      var u :| Cong(s, k - 1, t, u) && Contracts(u, t');
      OnlyNodesContract(u, t');
      CongNode(s, k - 1, t, u);
      SubCong(s, k - 1, j, t, u, us, us', c);
      ContractsAct(u, t', Inst(us'), c);
    } else {
      ClosedMore(t, 0, c);
      ClosedMore(t', 0, c);
      InstNotThere(t, us, c);
      InstNotThere(t', us', c);
      ParMono(s, k, k + j, t, t');
    }
  }

  lemma OnlyNodesContract(u: Term, t: Term)
    requires Contracts(u, t)
    ensures u.Node?
  {
  }

  lemma CongNode(s: Side, k: nat, t: Term, u: Term)
    requires Cong(s, k, t, u) && u.Node?
    ensures t.Node?
  {
  }

  lemma SubLeaf(s: Side, k: nat, j: nat, t: Term, t': Term, us: seq<Term>, us': seq<Term>, c: nat)
    requires !t.Node? && k > 0 && Cong(s, k - 1, t, t') && ParAll(s, j, us, us') && AllClosed(us) && AllClosed(us')
    ensures Par(s, k + j, Act(t, Inst(us), c), Act(t', Inst(us'), c))
  {
    hide Contracted, Meets, Closed;
    if t.Bound? && c <= t.index < c + |us| {
      var i := t.index - c;
      ShiftClosed(us[i], c, 0);
      ShiftClosed(us'[i], c, 0);
      ParMono(s, j, k + j, us[i], us'[i]);
    }
  }

  lemma {:induction false} SubCong(s: Side, k: nat, j: nat, t: Term, t': Term, us: seq<Term>, us': seq<Term>, c: nat)
    requires Cong(s, k, t, t') && t.Node? && ParAll(s, j, us, us') && AllClosed(us) && AllClosed(us')
    ensures Cong(s, k + j, Act(t, Inst(us), c), Act(t', Inst(us'), c))
    decreases k, 2
  {
    var a, b := t.kids, t'.kids;
    var a', b' := ActKids(a, Inst(us), c), ActKids(b, Inst(us'), c);
    forall i | 0 <= i < |a| ensures a'[i].binds == b'[i].binds && Par(s, k + j, a'[i].body, b'[i].body) {
      SubPar(s, k, j, a[i].body, b[i].body, us, us', c + a[i].binds);
    }
  }
}
