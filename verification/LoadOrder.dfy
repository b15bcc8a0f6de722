/**
  In which order the bindings of a program are loaded. All orders that succeed
  make the same globals; and a program that loads in one order loads in every
  order that puts each binding after those it mentions.
 */
module LoadOrder {
  import opened CoreIR
  import opened Nameless
  import opened Eval
  import opened Simulate
  import opened EraseFacts
  import opened Optimizer
  import opened ProgramRight
  import opened Mentions

  function KeyOf(b: Binding): VarKey { VarKey("", b.name) }

  function KeysOf(bs: seq<Binding>): set<VarKey> { set i | 0 <= i < |bs| :: KeyOf(bs[i]) }

  /** What of `done` is there once `bs` are loaded. */
  function StateAt(w: World, done: World, bs: seq<Binding>): World {
    World(w.delta, map g | g in done.globals && (g in w.globals || g in KeysOf(bs)) :: done.globals[g])
  }

  /** `done` adds the names of `bs` to `w`, and each has the value its binding
      gives once those before it are there. */
  ghost predicate Steady(w: World, bs: seq<Binding>, done: World) {
    && Within(w, done) && done.globals.Keys == w.globals.Keys + KeysOf(bs)
    && forall i :: 0 <= i < |bs| ==> GivesAt(w, bs, done, i)
  }

  ghost predicate GivesAt(w: World, bs: seq<Binding>, done: World, i: nat)
    requires i < |bs|
  {
    KeyOf(bs[i]) in done.globals &&
    exists f: nat :: Gives(StateAt(w, done, bs[..i]), f, bs[i].expr, done.globals[KeyOf(bs[i])])
  }

  lemma KeysNext(bs: seq<Binding>)
    requires bs != []
    ensures KeysOf(bs) == {KeyOf(bs[0])} + KeysOf(bs[1..])
  {
    forall g | g in KeysOf(bs) ensures g in {KeyOf(bs[0])} + KeysOf(bs[1..]) {
      var i :| 0 <= i < |bs| && g == KeyOf(bs[i]);
      if i > 0 { assert bs[1..][i - 1] == bs[i]; }
    }
    forall g | g in KeysOf(bs[1..]) ensures g in KeysOf(bs) {
      var i :| 0 <= i < |bs[1..]| && g == KeyOf(bs[1..][i]);
      assert bs[i + 1] == bs[1..][i];
    }
    assert bs[0] == bs[0];
  }

  lemma StateNext(w: World, done: World, bs: seq<Binding>, v: Term, i: nat)
    requires bs != [] && i <= |bs| - 1 && Within(With(w, bs[0].name, v), done)
    ensures StateAt(With(w, bs[0].name, v), done, bs[1..][..i]) == StateAt(w, done, bs[..i + 1])
  {
    assert bs[..i + 1][0] == bs[0] && bs[..i + 1][1..] == bs[1..][..i];
    KeysNext(bs[..i + 1]);
  }

  lemma StateStart(w: World, done: World, bs: seq<Binding>)
    requires Within(w, done)
    ensures StateAt(w, done, bs[..0]) == w
  {
    assert KeysOf(bs[..0]) == {};
    assert StateAt(w, done, bs[..0]).globals == w.globals;
  }

  /** Loading in order, without the order of the definition. */
  lemma {:induction false} LoadsIff(w: World, bs: seq<Binding>, done: World)
    requires Unbound(w, bs)
    ensures Loads(w, bs, done) <==> Steady(w, bs, done)
    decreases |bs|
  {
    hide Gives;
    if bs == [] {
      assert KeysOf(bs) == {};
      if Steady(w, bs, done) { assert done.globals == w.globals; }
    } else {
      if Loads(w, bs, done) { LoadsSteady(w, bs, done); }
      if Steady(w, bs, done) { SteadyLoads(w, bs, done); }
    }
  }

  lemma {:induction false} LoadsSteady(w: World, bs: seq<Binding>, done: World)
    requires bs != [] && Unbound(w, bs) && Loads(w, bs, done)
    ensures Steady(w, bs, done)
    decreases |bs|, 0
  {
    hide Gives, StateAt;
    var f: nat, v :| Gives(w, f, bs[0].expr, v) && Loads(With(w, bs[0].name, v), bs[1..], done);
    var w1 := With(w, bs[0].name, v);
    UnboundNext(w, bs, v);
    LoadsIff(w1, bs[1..], done);
    KeysNext(bs);
    forall i | 0 <= i < |bs| ensures GivesAt(w, bs, done, i) {
      if i == 0 {
        StateStart(w, done, bs);
      } else {
        assert GivesAt(w1, bs[1..], done, i - 1);
        StateNext(w, done, bs, v, i - 1);
        assert bs[1..][i - 1] == bs[i];
      }
    }
  }

  lemma {:induction false} SteadyLoads(w: World, bs: seq<Binding>, done: World)
    requires bs != [] && Unbound(w, bs) && Steady(w, bs, done)
    ensures Loads(w, bs, done)
    decreases |bs|, 0
  {
    hide Gives, StateAt;
    assert GivesAt(w, bs, done, 0);
    StateStart(w, done, bs);
    var v := done.globals[KeyOf(bs[0])];
    var f: nat :| Gives(w, f, bs[0].expr, v);
    var w1 := With(w, bs[0].name, v);
    UnboundNext(w, bs, v);
    KeysNext(bs);
    assert Within(w1, done);
    forall i | 0 <= i < |bs[1..]| ensures GivesAt(w1, bs[1..], done, i) {
      assert GivesAt(w, bs, done, i + 1);
      StateNext(w, done, bs, v, i);
      assert bs[1..][i] == bs[i + 1];
    }
    LoadsIff(w1, bs[1..], done);
  }

  // ---- One result ----

  /** The same bindings, in whatever order. */
  ghost predicate SameBindings(a: seq<Binding>, b: seq<Binding>) {
    (forall i :: 0 <= i < |a| ==> a[i] in b) && (forall i :: 0 <= i < |b| ==> b[i] in a)
  }

  lemma SameKeys(a: seq<Binding>, b: seq<Binding>)
    requires SameBindings(a, b)
    ensures KeysOf(a) == KeysOf(b)
  {
    forall g | g in KeysOf(a) ensures g in KeysOf(b) {
      var i :| 0 <= i < |a| && g == KeyOf(a[i]);
      var j :| 0 <= j < |b| && b[j] == a[i];
    }
    forall g | g in KeysOf(b) ensures g in KeysOf(a) {
      var i :| 0 <= i < |b| && g == KeyOf(b[i]);
      var j :| 0 <= j < |a| && a[j] == b[i];
    }
  }

  /** Where a value comes from does not depend on how much is loaded. */
  lemma GivesLater(w: World, bs: seq<Binding>, done: World, i: nat) returns (f: nat)
    requires i < |bs| && Within(w, done) && GivesAt(w, bs, done, i)
    ensures Gives(done, f, bs[i].expr, done.globals[KeyOf(bs[i])])
  {
    hide Ev, Meaning;
    var s := StateAt(w, done, bs[..i]);
    f :| Gives(s, f, bs[i].expr, done.globals[KeyOf(bs[i])]);
    EvWithin(s, done, f, Meaning(bs[i].expr));
  }

  lemma {:induction false} SameValues(w: World, a: seq<Binding>, b: seq<Binding>, d: World, e: World, i: nat)
    requires Steady(w, a, d) && Steady(w, b, e) && SameBindings(a, b) && i <= |a|
    ensures forall j :: 0 <= j < i ==> KeyOf(a[j]) in d.globals && KeyOf(a[j]) in e.globals && d.globals[KeyOf(a[j])] == e.globals[KeyOf(a[j])]
  {
    hide Ev, Meaning;
    if i > 0 {
      SameValues(w, a, b, d, e, i - 1);
      SameKeys(a, b);
      var x := a[i - 1];
      assert GivesAt(w, a, d, i - 1);
      var s := StateAt(w, d, a[..i - 1]);
      var f: nat :| Gives(s, f, x.expr, d.globals[KeyOf(x)]);
      assert Within(s, e) by {
        forall g | g in s.globals ensures g in e.globals && e.globals[g] == s.globals[g] {
          if g !in w.globals {
            var j :| 0 <= j < |a[..i - 1]| && g == KeyOf(a[..i - 1][j]);
            assert a[..i - 1][j] == a[j];
          }
        }
      }
      EvWithin(s, e, f, Meaning(x.expr));
      var k :| 0 <= k < |b| && b[k] == x;
      var f' := GivesLater(w, b, e, k);
      EvAgree(e, f, f', Meaning(x.expr));
    }
  }

  /** Two orders that both succeed make the same globals. */
  lemma LoadsUnique(w: World, a: seq<Binding>, b: seq<Binding>, d: World, e: World)
    requires Unbound(w, a) && Unbound(w, b) && SameBindings(a, b) && Loads(w, a, d) && Loads(w, b, e)
    ensures d == e
  {
    hide Loads, GivesAt;
    LoadsIff(w, a, d);
    LoadsIff(w, b, e);
    SameValues(w, a, b, d, e, |a|);
    SameKeys(a, b);
    forall g | g in d.globals ensures e.globals[g] == d.globals[g] {
      if g !in w.globals { var j :| 0 <= j < |a| && g == KeyOf(a[j]); }
    }
    assert d.globals == e.globals;
  }

  // ---- Every dependency order ----

  /** What binding `k` mentions of the program stands before it, itself aside. */
  ghost predicate Follows(bs: seq<Binding>, k: nat)
    requires k < |bs|
  {
    forall g :: g in FreeVars(bs[k].expr) && g in KeysOf(bs) ==> g == KeyOf(bs[k]) || g in KeysOf(bs[..k])
  }

  /** Everything that stands before `b[k]` in `a` does so in `b` as well. */
  ghost predicate Behind(a: seq<Binding>, b: seq<Binding>, k: nat)
    requires k < |b|
  {
    exists j :: 0 <= j < |a| && a[j] == b[k] && KeysOf(a[..j]) <= KeysOf(b[..k])
  }

  /** No global of `w` mentions a name of the program. */
  ghost predicate Foreign(w: World, bs: seq<Binding>) {
    forall g :: g in w.globals ==> Only(w.globals[g], h => h !in KeysOf(bs))
  }

  /** The globals after `k` bindings, and names that no global has. */
  ghost function Near(w: World, bs: seq<Binding>, done: World, k: nat): Keys
    requires k <= |bs|
  {
    h => h in w.globals || h in KeysOf(bs[..k]) || h !in done.globals
  }

  lemma {:induction false} KeysSooner(bs: seq<Binding>, k: nat)
    requires k < |bs|
    ensures KeysOf(bs[..k + 1]) == KeysOf(bs[..k]) + {KeyOf(bs[k])}
  {
    var a, b := bs[..k], bs[..k + 1];
    forall g | g in KeysOf(b) ensures g in KeysOf(a) + {KeyOf(bs[k])} {
      var i :| 0 <= i < |b| && g == KeyOf(b[i]);
      if i < k { assert a[i] == b[i]; }
    }
    forall g | g in KeysOf(a) ensures g in KeysOf(b) {
      var i :| 0 <= i < |a| && g == KeyOf(a[i]);
      assert b[i] == a[i];
    }
    assert b[k] == bs[k];
  }

  /** The values loaded so far mention nothing that is still to come. */
  ghost predicate Grounded(w: World, bs: seq<Binding>, done: World, k: nat)
    requires k <= |bs|
  {
    forall g :: g in done.globals && (g in w.globals || g in KeysOf(bs[..k])) ==> Only(done.globals[g], Near(w, bs, done, k))
  }

  lemma GroundedStart(w: World, a: seq<Binding>, bs: seq<Binding>, done: World)
    requires Foreign(w, bs) && Within(w, done) && done.globals.Keys == w.globals.Keys + KeysOf(bs)
    ensures Grounded(w, bs, done, 0)
  {
    hide Only;
    assert KeysOf(bs[..0]) == {};
    forall g | g in w.globals ensures Only(done.globals[g], Near(w, bs, done, 0)) {
      OnlyMore(w.globals[g], h => h !in KeysOf(bs), Near(w, bs, done, 0));
    }
  }

  /** One more binding of a dependency order gives the value it has in `done`. */
  lemma OrderStep(w: World, a: seq<Binding>, bs: seq<Binding>, done: World, j: nat, k: nat)
    requires k < |bs| && j < |a| && a[j] == bs[k] && Unbound(w, bs) && Unbound(w, a) && Follows(bs, k)
    requires Within(w, done) && done.globals.Keys == w.globals.Keys + KeysOf(bs) && KeysOf(a) == KeysOf(bs)
    requires GivesAt(w, a, done, j) && Grounded(w, bs, done, k)
    ensures GivesAt(w, bs, done, k) && Grounded(w, bs, done, k + 1)
  {
    hide Ev, Meaning, Only, FreeVars, Gives;
    var x := bs[k];
    var s, t := StateAt(w, done, a[..j]), StateAt(w, done, bs[..k]);
    var f: nat :| Gives(s, f, x.expr, done.globals[KeyOf(x)]);
    var H := Near(w, bs, done, k + 1);
    KeysSooner(bs, k);
    OwnLater(w, a, done, j);
    forall g | g in FreeVars(x.expr) ensures H(g) {}
    MeaningOnly(x.expr, H);
    forall g | g in done.globals && (g in w.globals || g in KeysOf(bs[..k])) ensures Only(done.globals[g], H) {
      OnlyMore(done.globals[g], Near(w, bs, done, k), H);
    }
    assert Shares(s, t, H);
    StepOnly(s, t, H, f, x.expr, done.globals[KeyOf(x)]);
  }

  lemma StepOnly(s: World, t: World, H: Keys, f: nat, e: Core, v: Term)
    requires Shares(s, t, H) && Only(Meaning(e), H) && Gives(s, f, e, v)
    ensures Gives(t, f, e, v) && Only(v, H)
  {
    hide Only, Ev, Meaning;
    EvOnly(s, t, H, f, Meaning(e));
  }

  lemma OwnLater(w: World, a: seq<Binding>, done: World, j: nat)
    requires j < |a| && Unbound(w, a)
    ensures KeyOf(a[j]) !in StateAt(w, done, a[..j]).globals
  {
  }

  lemma BehindStep(w: World, a: seq<Binding>, bs: seq<Binding>, done: World, k: nat)
    requires k < |bs| && Behind(a, bs, k) && Steady(w, a, done)
    ensures GivesAt(w, bs, done, k)
  {
    hide Ev, Meaning;
    var j :| 0 <= j < |a| && a[j] == bs[k] && KeysOf(a[..j]) <= KeysOf(bs[..k]);
    assert GivesAt(w, a, done, j);
    var s, t := StateAt(w, done, a[..j]), StateAt(w, done, bs[..k]);
    var f: nat :| Gives(s, f, bs[k].expr, done.globals[KeyOf(bs[k])]);
    assert Within(s, t);
    EvWithin(s, t, f, Meaning(bs[k].expr));
    assert Gives(t, f, bs[k].expr, done.globals[KeyOf(bs[k])]);
  }

  lemma {:induction false} OrderSteps(w: World, a: seq<Binding>, bs: seq<Binding>, done: World, m: nat)
    requires m <= |bs| && Unbound(w, bs) && Unbound(w, a) && SameBindings(a, bs) && Foreign(w, bs) && Steady(w, a, done)
    requires forall k :: 0 <= k < m ==> Follows(bs, k)
    ensures Grounded(w, bs, done, m) && forall k :: 0 <= k < m ==> GivesAt(w, bs, done, k)
  {
    hide GivesAt, Only, Grounded, Follows, Unbound;
    SameKeys(a, bs);
    if m == 0 {
      GroundedStart(w, a, bs, done);
    } else {
      OrderSteps(w, a, bs, done, m - 1);
      var j :| 0 <= j < |a| && a[j] == bs[m - 1];
      OrderStep(w, a, bs, done, j, m - 1);
    }
  }

  /** A program that loads in the order `a` loads in the order `bs` too, with the
      same result, if up to `m` each binding of `bs` comes after those it
      mentions and from there on after those it came after in `a`. */
  lemma LoadsReordered(w: World, a: seq<Binding>, bs: seq<Binding>, m: nat, done: World)
    requires Unbound(w, a) && Unbound(w, bs) && SameBindings(a, bs) && Foreign(w, bs) && Loads(w, a, done) && m <= |bs|
    requires forall k :: 0 <= k < m ==> Follows(bs, k)
    requires forall k :: m <= k < |bs| ==> Behind(a, bs, k)
    ensures Loads(w, bs, done)
  {
    hide Loads, GivesAt, Only, Grounded, Follows, Behind, Unbound, Within;
    LoadsIff(w, a, done);
    LoadsIff(w, bs, done);
    SameKeys(a, bs);
    OrderSteps(w, a, bs, done, m);
    forall k | m <= k < |bs| ensures GivesAt(w, bs, done, k) { BehindStep(w, a, bs, done, k); }
  }
}
