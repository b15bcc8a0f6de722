/**
  Any number of contractions one after another, at any place of a term, and
  what they guarantee about the values computed.
 */
module Chains {
  import opened Nameless
  import opened Eval
  import opened EvalFacts
  import opened Contract
  import opened Refine
  import opened Simulate

  ghost predicate Steps(w: World, n: nat, t: Term, t': Term) {
    if n == 0 then t == t' else exists u :: OneStep(w, t, u) && Steps(w, n - 1, u, t')
  }

  ghost predicate OneStep(w: World, t: Term, u: Term) { exists k: nat :: Par(Both(w), k, t, u) }

  /** `t'` is reached from `t` by contractions. */
  ghost predicate Refines(w: World, t: Term, t': Term) { exists n: nat :: Steps(w, n, t, t') }

  lemma RefinesRefl(w: World, t: Term)
    ensures Refines(w, t, t)
  {
    assert Steps(w, 0, t, t);
  }

  lemma {:induction false} StepsTrans(w: World, n: nat, m: nat, a: Term, b: Term, c: Term)
    requires Steps(w, n, a, b) && Steps(w, m, b, c)
    ensures Steps(w, n + m, a, c)
  {
    if n > 0 {
      var u :| OneStep(w, a, u) && Steps(w, n - 1, u, b);
      StepsTrans(w, n - 1, m, u, b, c);
    }
  }

  lemma RefinesTrans(w: World, a: Term, b: Term, c: Term)
    requires Refines(w, a, b) && Refines(w, b, c)
    ensures Refines(w, a, c)
  {
    var n: nat :| Steps(w, n, a, b);
    var m: nat :| Steps(w, m, b, c);
    StepsTrans(w, n, m, a, b, c);
  }

  lemma RefinesOne(w: World, t: Term, u: Term)
    requires OneStep(w, t, u)
    ensures Refines(w, t, u)
  {
    assert Steps(w, 0, u, u);
    assert Steps(w, 1, t, u);
  }

  lemma RefinesContract(w: World, u: Term, t: Term)
    requires Contracts(u, t)
    ensures Refines(w, u, t)
  {
    var k := CongRefl(Both(w), u);
    assert Contracted(Both(w), k, u, t);
    assert Par(Both(w), k + 1, u, t);
    assert OneStep(w, u, t);
    RefinesOne(w, u, t);
  }

  /** Closed terms with the same value refine each other. */
  lemma RefinesSame(w: World, t: Term, t': Term, n: nat, m: nat)
    requires Closed(t, 0) && Closed(t', 0) && Ev(w, n, t).Just? && Ev(w, m, t') == Ev(w, n, t)
    ensures Refines(w, t, t')
  {
    hide Ev, Closed, Cong, Contracted;
    var v := Ev(w, n, t).value;
    var k := CongRefl(Both(w), v);
    assert Meets(Both(w), k, t, t');
    assert Par(Both(w), k + 1, t, t');
    assert OneStep(w, t, t');
    RefinesOne(w, t, t');
  }

  // ---- Congruence ----

  lemma KidStep(w: World, op: Op, kids: seq<Kid>, i: nat, u: Term)
    requires i < |kids| && OneStep(w, kids[i].body, u)
    ensures OneStep(w, Node(op, kids), Node(op, kids[i := Kid(kids[i].binds, u)]))
  {
    var t, t' := Node(op, kids), Node(op, kids[i := Kid(kids[i].binds, u)]);
    var k: nat :| Par(Both(w), k, kids[i].body, u);
    var j := CongRefl(Both(w), t);
    assert CongKids(Both(w), j, kids, kids);
    forall l | 0 <= l < |kids| ensures t'.kids[l].binds == kids[l].binds && Par(Both(w), k + j, kids[l].body, t'.kids[l].body) {
      ParMono(Both(w), if l == i then k else j, k + j, kids[l].body, t'.kids[l].body);
    }
    assert CongKids(Both(w), k + j, kids, t'.kids);
    assert Par(Both(w), k + j + 1, t, t');
  }

  lemma {:induction false} KidSteps(w: World, n: nat, op: Op, kids: seq<Kid>, i: nat, u: Term)
    requires i < |kids| && Steps(w, n, kids[i].body, u)
    ensures Steps(w, n, Node(op, kids), Node(op, kids[i := Kid(kids[i].binds, u)]))
  {
    if n == 0 {
      assert kids[i := Kid(kids[i].binds, u)] == kids;
    } else {
      var x :| OneStep(w, kids[i].body, x) && Steps(w, n - 1, x, u);
      var mid := kids[i := Kid(kids[i].binds, x)];
      KidStep(w, op, kids, i, x);
      KidSteps(w, n - 1, op, mid, i, u);
      assert mid[i := Kid(kids[i].binds, u)] == kids[i := Kid(kids[i].binds, u)];
    }
  }

  /** Contractions inside the children are contractions of the node. */
  lemma {:induction false} RefinesKids(w: World, op: Op, kids: seq<Kid>, kids': seq<Kid>, done: nat)
    requires |kids| == |kids'| && done <= |kids|
    requires forall i :: 0 <= i < |kids| ==> kids'[i].binds == kids[i].binds && Refines(w, kids[i].body, kids'[i].body)
    ensures Refines(w, Node(op, kids'[..done] + kids[done..]), Node(op, kids'))
    decreases |kids| - done
  {
    var now := kids'[..done] + kids[done..];
    if done == |kids| {
      assert now == kids';
      RefinesRefl(w, Node(op, kids'));
    } else {
      assert now[done] == kids[done];
      var n: nat :| Steps(w, n, kids[done].body, kids'[done].body);
      KidSteps(w, n, op, now, done, kids'[done].body);
      assert now[done := kids'[done]] == kids'[..done + 1] + kids[done + 1..];
      RefinesKids(w, op, kids, kids', done + 1);
      RefinesTrans(w, Node(op, now), Node(op, kids'[..done + 1] + kids[done + 1..]), Node(op, kids'));
    }
  }

  lemma RefinesNode(w: World, op: Op, kids: seq<Kid>, kids': seq<Kid>)
    requires |kids| == |kids'|
    requires forall i :: 0 <= i < |kids| ==> kids'[i].binds == kids[i].binds && Refines(w, kids[i].body, kids'[i].body)
    ensures Refines(w, Node(op, kids), Node(op, kids'))
  {
    RefinesKids(w, op, kids, kids', 0);
    assert kids'[..0] + kids[0..] == kids;
  }

  // ---- Values ----

  /** First-order results survive every contraction. */
  lemma {:induction false} StepsValue(w: World, s: nat, n: nat, t: Term, t': Term) returns (m: nat)
    requires WorldOk(w) && Closed(t, 0) && Steps(w, s, t, t') && Ev(w, n, t).Just? && Ground(Ev(w, n, t).value)
    ensures Ev(w, m, t') == Ev(w, n, t)
    decreases s
  {
    hide Ev, Closed, Par, Ground;
    m := n;
    if s > 0 {
      var u :| OneStep(w, t, u) && Steps(w, s - 1, u, t');
      var k: nat :| Par(Both(w), k, t, u);
      SameWorld(w);
      var i, j := Sim(Both(w), n, k, t, u);
      ParClosed(Both(w), k, t, u, 0);
      EvGood(w, n, t);
      EvGood(w, i, u);
      GroundSame(Both(w), j, Ev(w, n, t).value, Ev(w, i, u).value);
      m := StepsValue(w, s - 1, i, u, t');
    }
  }

  /** Whatever first-order value the original computes, the result computes. */
  lemma RefinesValue(w: World, n: nat, t: Term, t': Term)
    requires WorldOk(w) && Closed(t, 0) && Refines(w, t, t') && Ev(w, n, t).Just? && Ground(Ev(w, n, t).value)
    ensures exists m: nat :: Ev(w, m, t') == Ev(w, n, t)
  {
    var s: nat :| Steps(w, s, t, t');
    var m := StepsValue(w, s, n, t, t');
  }
}
