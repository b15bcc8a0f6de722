/**
  The order the runtime loads bindings in: a topological sort by the names a
  binding mentions, in which the bindings that wait for each other come last, in
  the order they are listed in. The optimized program is sorted anew, so its
  order need not be the one the original would have had.
 */
module SortBindings {
  import opened CoreIR
  import opened Eval
  import opened EvalFacts
  import opened Optimizer
  import opened Tidy
  import opened ProgramRight
  import opened ProgramTidy
  import opened Rewrites
  import opened LoadOrder

  /** Binding `j` is the last of its name. */
  predicate LastNamed(bs: seq<Binding>, j: nat)
    requires j < |bs|
  {
    forall i :: j < i < |bs| ==> bs[i].name != bs[j].name
  }

  /** The other bindings that binding `i` mentions, whatever module the mention
      is qualified with. */
  function Deps(bs: seq<Binding>, i: nat): set<nat>
    requires i < |bs|
  {
    set j: nat | j < |bs| && j != i && LastNamed(bs, j) && bs[j].name in FreeNames(bs[i].expr)
  }

  lemma DepsIff(bs: seq<Binding>, i: nat, j: nat)
    requires i < |bs|
    ensures j in Deps(bs, i) <==>
      && j < |bs| && j != i && (forall l :: j < l < |bs| ==> bs[l].name != bs[j].name)
      && exists k :: k in FreeVars(bs[i].expr) && k.name == bs[j].name
  {
  }

  function Members(s: seq<nat>): set<nat> { set x | x in s }

  /** Up to `m` every binding comes after those it mentions. */
  ghost predicate SortedTo(bs: seq<Binding>, order: seq<nat>, m: nat) {
    && IsOrder(order, |bs|) && m <= |bs| && forall p :: 0 <= p < m ==> Deps(bs, order[p]) <= Members(order[..p])
  }

  /** Mentions go down in rank, so they never go round. */
  ghost predicate Ranked(bs: seq<Binding>, rank: seq<nat>) {
    |rank| == |bs| && forall i, d :: 0 <= i < |bs| && d in Deps(bs, i) ==> rank[d] < rank[i]
  }

  // ---- The sort ----

  /** How many of the bindings that `i` mentions are still to be emitted. */
  ghost function Waiting(bs: seq<Binding>, i: nat, out: seq<nat>): nat
    requires i < |bs|
  {
    |Deps(bs, i) - Members(out)|
  }

  /** Every emitted binding comes after those it mentions. */
  ghost predicate Emitted(bs: seq<Binding>, out: seq<nat>) {
    forall p :: 0 <= p < |out| ==> out[p] < |bs| && Deps(bs, out[p]) <= Members(out[..p])
  }

  /** Emitted or queued, each once, are the bindings that wait for none, but for
      those in `late`, which have not been told yet. */
  ghost predicate Listed(bs: seq<Binding>, out: seq<nat>, all: seq<nat>, late: seq<nat>) {
    && Distinct(all) && (forall i :: i in all ==> i < |bs|)
    && (forall i :: 0 <= i < |bs| ==> (i in all <==> Waiting(bs, i, out) == 0 && i !in late))
  }

  /** `inDeg` counts what each binding waits for; those in `late` still count
      the binding emitted last. */
  ghost predicate Counts(bs: seq<Binding>, inDeg: seq<nat>, out: seq<nat>, late: seq<nat>) {
    |inDeg| == |bs| && forall i :: 0 <= i < |bs| ==> inDeg[i] == Waiting(bs, i, out) + (if i in late then 1 else 0)
  }

  /** Emitting the binding `x` ends the wait for it. */
  lemma WaitLess(bs: seq<Binding>, i: nat, out: seq<nat>, x: nat)
    requires i < |bs| && x !in out
    ensures Waiting(bs, i, out) == Waiting(bs, i, out + [x]) + (if x in Deps(bs, i) then 1 else 0)
  {
    hide Deps;
    var a, b := Deps(bs, i) - Members(out), Deps(bs, i) - Members(out + [x]);
    assert Members(out + [x]) == Members(out) + {x};
    if x in Deps(bs, i) { assert a == b + {x}; } else { assert a == b; }
  }

  /** The bindings that mention `x`, in the order listed. */
  function Users(bs: seq<Binding>, x: nat, upto: nat): (us: seq<nat>)
    requires upto <= |bs|
    ensures forall i: nat :: i in us <==> i < upto && x in Deps(bs, i)
    ensures forall p, q :: 0 <= p < q < |us| ==> us[p] < us[q]
  {
    if upto == 0 then []
    else
      var us := Users(bs, x, upto - 1);
      assert forall p :: 0 <= p < |us| ==> us[p] in us;
      if x in Deps(bs, upto - 1) then us + [upto - 1] else us
  }

  /** The next in the queue may be emitted; those that mention it do not know yet. */
  lemma EmitNext(bs: seq<Binding>, out: seq<nat>, queue: seq<nat>, inDeg: seq<nat>)
    requires queue != [] && Emitted(bs, out) && Listed(bs, out, out + queue, []) && Counts(bs, inDeg, out, [])
    ensures var x := queue[0]; var out', us := out + [x], Users(bs, x, |bs|);
      x < |bs| && Emitted(bs, out') && Listed(bs, out', out' + queue[1..], us) && Counts(bs, inDeg, out', us)
  {
    hide Deps, Waiting, Emitted, Users;
    var x, all := queue[0], out + queue;
    assert (out + [x]) + queue[1..] == all && all[|out|] == x && x in all;
    assert x !in out by { forall p | 0 <= p < |out| ensures out[p] != x { assert all[p] == out[p]; } }
    WaitNone(bs, x, out);
    EmittedNext(bs, out, x);
    var out', us := out + [x], Users(bs, x, |bs|);
    UsersAre(bs, x);
    forall i | 0 <= i < |bs| ensures Waiting(bs, i, out) == Waiting(bs, i, out') + (if i in us then 1 else 0) { WaitLess(bs, i, out, x); }
    LateListed(bs, out, out', all, us);
  }

  lemma UsersAre(bs: seq<Binding>, x: nat)
    ensures forall i: nat :: i in Users(bs, x, |bs|) <==> i < |bs| && x in Deps(bs, i)
  {
  }

  lemma LateListed(bs: seq<Binding>, out: seq<nat>, out': seq<nat>, all: seq<nat>, us: seq<nat>)
    requires Listed(bs, out, all, [])
    requires forall i :: 0 <= i < |bs| ==> Waiting(bs, i, out) == Waiting(bs, i, out') + (if i in us then 1 else 0)
    ensures Listed(bs, out', all, us)
  {
    hide Waiting;
  }

  lemma EmittedNext(bs: seq<Binding>, out: seq<nat>, x: nat)
    requires Emitted(bs, out) && x < |bs| && Deps(bs, x) <= Members(out)
    ensures Emitted(bs, out + [x])
  {
    hide Deps;
    var out' := out + [x];
    forall p | 0 <= p < |out'| ensures out'[p] < |bs| && Deps(bs, out'[p]) <= Members(out'[..p]) {
      if p < |out| { assert out'[..p] == out[..p]; } else { assert out'[..p] == out; }
    }
  }

  lemma WaitNone(bs: seq<Binding>, i: nat, out: seq<nat>)
    requires i < |bs|
    ensures Waiting(bs, i, out) == 0 <==> Deps(bs, i) <= Members(out)
  {
    hide Deps, Members;
    var a, b := Deps(bs, i), Members(out);
    assert a <= b <==> a - b == {} by {
      if a - b == {} { forall d | d in a ensures d in b { assert d !in a - b; } }
    }
  }

  /** One more binding is told. */
  lemma Told(bs: seq<Binding>, out: seq<nat>, all: seq<nat>, late: seq<nat>, inDeg: seq<nat>)
    requires late != [] && Distinct(late) && late[0] < |bs| && Listed(bs, out, all, late) && Counts(bs, inDeg, out, late)
    ensures inDeg[late[0]] > 0
    ensures var j := late[0]; var inDeg' := inDeg[j := inDeg[j] - 1];
      Counts(bs, inDeg', out, late[1..]) && Listed(bs, out, if inDeg'[j] == 0 then all + [j] else all, late[1..])
  {
    hide Waiting;
    var j, rest := late[0], late[1..];
    assert late == [j] + rest && j !in rest;
    assert j in late;
    assert inDeg[j] == Waiting(bs, j, out) + 1;
    forall i | 0 <= i < |bs| && i != j ensures i in late <==> i in rest {}
    var inDeg' := inDeg[j := inDeg[j] - 1];
    assert Counts(bs, inDeg', out, rest);
    var all' := if inDeg'[j] == 0 then all + [j] else all;
    forall i | 0 <= i < |bs| ensures i in all' <==> Waiting(bs, i, out) == 0 && i !in rest {
      assert i in all' <==> i in all || (i == j && inDeg'[j] == 0);
    }
  }

  // ---- First come, first served ----

  /** The first `k` emitted are all that binding `i` waits for. */
  ghost predicate ReadyBy(bs: seq<Binding>, out: seq<nat>, i: nat, k: int)
    requires i < |bs| && 0 <= k <= |out|
  {
    Deps(bs, i) <= Members(out[..k])
  }

  /** Binding `a` stops waiting before `b`, or with it and is listed before it. */
  ghost predicate Sooner(bs: seq<Binding>, out: seq<nat>, a: nat, b: nat) {
    a < |bs| && b < |bs| &&
    ((exists k :: 0 <= k <= |out| && ReadyBy(bs, out, a, k) && !ReadyBy(bs, out, b, k))
     || (a < b && forall k :: 0 <= k <= |out| ==> (ReadyBy(bs, out, a, k) <==> ReadyBy(bs, out, b, k))))
  }

  ghost predicate Fifo(bs: seq<Binding>, out: seq<nat>, all: seq<nat>) {
    forall p, q :: 0 <= p < q < |all| ==> Sooner(bs, out, all[p], all[q])
  }

  ghost predicate AllReady(bs: seq<Binding>, out: seq<nat>, all: seq<nat>) {
    forall i :: i in all ==> i < |bs| && Deps(bs, i) <= Members(out)
  }

  lemma ListedReady(bs: seq<Binding>, out: seq<nat>, all: seq<nat>, late: seq<nat>)
    requires Listed(bs, out, all, late)
    ensures AllReady(bs, out, all)
  {
    hide Deps, Waiting;
    forall i | i in all ensures Deps(bs, i) <= Members(out) { WaitNone(bs, i, out); }
  }

  lemma SoonerNext(bs: seq<Binding>, out: seq<nat>, x: nat, a: nat, b: nat)
    requires Sooner(bs, out, a, b) && Deps(bs, a) <= Members(out) && Deps(bs, b) <= Members(out)
    ensures Sooner(bs, out + [x], a, b)
  {
    hide Deps;
    var out' := out + [x];
    assert out'[..|out'|] == out' && out[..|out|] == out;
    forall i: nat, k: int | i < |bs| && 0 <= k <= |out| ensures ReadyBy(bs, out', i, k) <==> ReadyBy(bs, out, i, k) { assert out'[..k] == out[..k]; }
    if k :| 0 <= k <= |out| && ReadyBy(bs, out, a, k) && !ReadyBy(bs, out, b, k) {
      assert ReadyBy(bs, out', a, k) && !ReadyBy(bs, out', b, k);
    } else {
      forall k | 0 <= k <= |out'| ensures ReadyBy(bs, out', a, k) <==> ReadyBy(bs, out', b, k) {
        if k <= |out| { assert ReadyBy(bs, out, a, k) <==> ReadyBy(bs, out, b, k); } else { assert Members(out) <= Members(out'); }
      }
    }
  }

  lemma FifoNext(bs: seq<Binding>, out: seq<nat>, x: nat, all: seq<nat>)
    requires Fifo(bs, out, all) && AllReady(bs, out, all)
    ensures Fifo(bs, out + [x], all)
  {
    hide Deps, Sooner;
    forall p, q | 0 <= p < q < |all| ensures Sooner(bs, out + [x], all[p], all[q]) {
      assert all[p] in all && all[q] in all;
      SoonerNext(bs, out, x, all[p], all[q]);
    }
  }

  /** A binding waited for `x` to the last. */
  ghost predicate JustReady(bs: seq<Binding>, out: seq<nat>, x: nat, j: nat) {
    j < |bs| && x in Deps(bs, j) && Deps(bs, j) <= Members(out + [x])
  }

  lemma JustThen(bs: seq<Binding>, out: seq<nat>, x: nat, j: nat, k: int)
    requires JustReady(bs, out, x, j) && x !in out && 0 <= k <= |out| + 1
    ensures ReadyBy(bs, out + [x], j, k) <==> k == |out| + 1
  {
    hide Deps;
    var out' := out + [x];
    if k <= |out| {
      assert out'[..k] == out[..k];
      assert x !in Members(out[..k]);
    } else {
      assert out'[..k] == out';
    }
  }

  /** A binding that is queued because of `x` comes after all that are there. */
  lemma FifoMore(bs: seq<Binding>, out: seq<nat>, x: nat, there: seq<nat>, news: seq<nat>, j: nat)
    requires Fifo(bs, out + [x], there + news) && AllReady(bs, out, there) && x !in out && JustReady(bs, out, x, j)
    requires forall i :: i in news ==> i < j && JustReady(bs, out, x, i)
    ensures Fifo(bs, out + [x], there + (news + [j]))
  {
    hide Deps, ReadyBy, JustReady;
    var out', all := out + [x], there + news;
    forall p | 0 <= p < |all| ensures Sooner(bs, out', all[p], j) {
      if p < |there| {
        assert all[p] in there;
        OldSooner(bs, out, x, all[p], j);
      } else {
        assert all[p] in news;
        NewSooner(bs, out, x, all[p], j);
      }
    }
    var all' := there + (news + [j]);
    forall p, q | 0 <= p < q < |all'| ensures Sooner(bs, out', all'[p], all'[q]) {
      if q < |all| { assert all'[p] == all[p] && all'[q] == all[q]; } else { assert all'[p] == all[p] && all'[q] == j; }
    }
  }

  lemma OldSooner(bs: seq<Binding>, out: seq<nat>, x: nat, i: nat, j: nat)
    requires i < |bs| && Deps(bs, i) <= Members(out) && x !in out && JustReady(bs, out, x, j)
    ensures Sooner(bs, out + [x], i, j)
  {
    hide Deps;
    var out', k := out + [x], |out|;
    JustThen(bs, out, x, j, k);
    assert out'[..k] == out;
    assert ReadyBy(bs, out', i, k) && !ReadyBy(bs, out', j, k);
  }

  lemma NewSooner(bs: seq<Binding>, out: seq<nat>, x: nat, i: nat, j: nat)
    requires i < j && JustReady(bs, out, x, i) && x !in out && JustReady(bs, out, x, j)
    ensures Sooner(bs, out + [x], i, j)
  {
    hide Deps, ReadyBy;
    forall k | 0 <= k <= |out + [x]| ensures ReadyBy(bs, out + [x], i, k) <==> ReadyBy(bs, out + [x], j, k) {
      JustThen(bs, out, x, i, k);
      JustThen(bs, out, x, j, k);
    }
  }

  /** Bindings that wait for none from the start, in the order listed. */
  lemma FifoStart(bs: seq<Binding>, queue: seq<nat>)
    requires AllReady(bs, [], queue) && forall p, q :: 0 <= p < q < |queue| ==> queue[p] < queue[q]
    ensures Fifo(bs, [], queue)
  {
    hide Deps;
    forall p, q | 0 <= p < q < |queue| ensures Sooner(bs, [], queue[p], queue[q]) {
      assert queue[p] in queue && queue[q] in queue;
      var out: seq<nat> := [];
      forall k | 0 <= k <= |out| ensures ReadyBy(bs, [], queue[p], k) <==> ReadyBy(bs, [], queue[q], k) { assert out[..k] == []; }
    }
  }

  /** Tell the bindings that mention `x` that it has been emitted, and queue
      those that wait for no other. */
  method Release(bs: seq<Binding>, x: nat, ghost before: seq<nat>, inDeg: seq<nat>, queue: seq<nat>)
    returns (inDeg': seq<nat>, queue': seq<nat>)
    requires x < |bs| && x !in before && AllReady(bs, before, before + [x] + queue) && Fifo(bs, before + [x], before + [x] + queue)
    requires var out, us := before + [x], Users(bs, x, |bs|); Listed(bs, out, out + queue, us) && Counts(bs, inDeg, out, us)
    ensures var out := before + [x]; Listed(bs, out, out + queue', []) && Counts(bs, inDeg', out, []) && Fifo(bs, out, out + queue')
  {
    hide Listed, Counts, Fifo, JustReady, AllReady, Waiting, Deps;
    inDeg', queue' := inDeg, queue;
    ghost var out, there := before + [x], before + [x] + queue;
    ghost var news: seq<nat> := [];
    var us := Users(bs, x, |bs|);
    assert us[0..] == us && there + news == out + queue';
    for k := 0 to |us|
      invariant Counts(bs, inDeg', out, us[k..]) && Listed(bs, out, out + queue', us[k..])
      invariant out + queue' == there + news && Fifo(bs, out, there + news)
      invariant forall i :: i in news ==> JustReady(bs, before, x, i) && forall l :: k <= l < |us| ==> i < us[l]
    {
      var j, late := us[k], us[k..];
      assert late[0] == j && late[1..] == us[k + 1..] && j in us;
      assert Distinct(late);
      CountsLength(bs, inDeg', out, late);
      Told(bs, out, out + queue', late, inDeg');
      inDeg' := inDeg'[j := inDeg'[j] - 1];
      if inDeg'[j] == 0 {
        assert (out + queue') + [j] == out + (queue' + [j]);
        JustTold(bs, before, x, inDeg', us[k + 1..], j, late);
        FifoMore(bs, before, x, there, news, j);
        queue' := queue' + [j];
        news := news + [j];
        assert out + queue' == there + news;
      }
    }
    assert us[|us|..] == [];
  }

  lemma JustTold(bs: seq<Binding>, before: seq<nat>, x: nat, inDeg: seq<nat>, rest: seq<nat>, j: nat, late: seq<nat>)
    requires j < |bs| && x in Deps(bs, j) && Counts(bs, inDeg, before + [x], rest) && inDeg[j] == 0
    ensures JustReady(bs, before, x, j)
  {
    hide Deps, Waiting;
    WaitNone(bs, j, before + [x]);
  }

  lemma CountsLength(bs: seq<Binding>, inDeg: seq<nat>, out: seq<nat>, late: seq<nat>)
    requires Counts(bs, inDeg, out, late)
    ensures |inDeg| == |bs|
  {
  }

  /** The indices up to `upto` that were not emitted. */
  function Others(out: seq<nat>, upto: nat): (rs: seq<nat>)
    ensures forall i: nat :: i in rs <==> i < upto && i !in out
    ensures forall p, q :: 0 <= p < q < |rs| ==> rs[p] < rs[q]
  {
    if upto == 0 then []
    else
      var rs := Others(out, upto - 1);
      assert forall p :: 0 <= p < |rs| ==> rs[p] in rs;
      if upto - 1 in out then rs else rs + [upto - 1]
  }

  /** A list in which exactly the numbers up to `k` occur, each once, has length `k`. */
  lemma {:induction false} CountAll(s: seq<nat>, k: nat)
    requires Distinct(s) && forall i: nat :: i in s <==> i < k
    ensures |s| == k
  {
    CountDistinct(s);
    CountBelow(k);
    assert Members(s) == Below(k);
  }

  function Below(k: nat): (s: set<nat>)
    ensures forall i: nat :: i in s <==> i < k
  {
    if k == 0 then {} else Below(k - 1) + {k - 1}
  }

  lemma {:induction false} CountBelow(k: nat)
    ensures |Below(k)| == k
  {
    if k > 0 {
      CountBelow(k - 1);
      assert Below(k) == Below(k - 1) + {k - 1};
    }
  }

  lemma {:induction false} CountDistinct(s: seq<nat>)
    requires Distinct(s)
    ensures |Members(s)| == |s|
  {
    if s != [] {
      var k := |s| - 1;
      CountDistinct(s[..k]);
      assert Members(s) == Members(s[..k]) + {s[k]} by { assert s == s[..k] + [s[k]]; }
      assert s[k] !in s[..k];
    }
  }

  lemma AllOnce(out: seq<nat>, n: nat)
    requires Distinct(out) && forall i :: i in out ==> i < n
    ensures IsOrder(out + Others(out, n), n)
  {
    var rs := Others(out, n);
    var order := out + rs;
    forall i: nat ensures i in order <==> i < n { assert i in order <==> i in out || i in rs; }
    forall p, q | 0 <= p < q < |order| ensures order[p] != order[q] {
      if p < |out| <= q { assert order[p] in out && order[q] in rs; }
    }
    CountAll(order, n);
    forall i | 0 <= i < n ensures order[i] < n { assert order[i] in order; }
  }

  /** The binding at `p` waits for one that comes no earlier than `m`. */
  ghost predicate WaitsOn(bs: seq<Binding>, order: seq<nat>, m: nat, p: nat)
    requires p < |order| && order[p] < |bs|
  {
    exists q :: m <= q < |order| && order[q] in Deps(bs, order[p])
  }

  /** The bindings left over each wait for another one left over. */
  ghost predicate AllWait(bs: seq<Binding>, order: seq<nat>, m: nat)
    requires IsOrder(order, |bs|)
  {
    forall p :: m <= p < |bs| ==> WaitsOn(bs, order, m, p)
  }

  /** What the sort makes of `bs`: up to `m` each binding after those it
      mentions, and then those that wait for each other, in the order listed. */
  ghost predicate IsSort(bs: seq<Binding>, order: seq<nat>, m: nat) {
    SortedTo(bs, order, m) && AllWait(bs, order, m) && forall p, q :: m <= p < q < |bs| ==> order[p] < order[q]
  }

  lemma Leftover(bs: seq<Binding>, out: seq<nat>)
    requires Emitted(bs, out) && Listed(bs, out, out, [])
    ensures IsSort(bs, out + Others(out, |bs|), |out|)
  {
    hide Deps, Waiting, WaitsOn, IsOrder;
    var rs, n, m := Others(out, |bs|), |bs|, |out|;
    var order := out + rs;
    AllOnce(out, n);
    OrderIs(order, n);
    forall p | 0 <= p < m ensures Deps(bs, order[p]) <= Members(order[..p]) { assert order[..p] == out[..p]; }
    forall p | m <= p < n ensures WaitsOn(bs, order, m, p) {
      assert order[p] in rs;
      WaitsStill(bs, out, p);
    }
  }

  lemma OrderIs(order: seq<nat>, n: nat)
    requires IsOrder(order, n)
    ensures |order| == n && forall i :: 0 <= i < n ==> order[i] < n
  {
  }

  lemma WaitsStill(bs: seq<Binding>, out: seq<nat>, p: nat)
    requires var order := out + Others(out, |bs|); p < |order| && order[p] < |bs| && Waiting(bs, order[p], out) != 0
    ensures WaitsOn(bs, out + Others(out, |bs|), |out|, p)
  {
    hide Waiting;
    var rs := Others(out, |bs|);
    var order := out + rs;
    WaitNone(bs, order[p], out);
    var d :| d in Deps(bs, order[p]) && d !in Members(out);
    assert d in rs;
    var q :| 0 <= q < |rs| && rs[q] == d;
    assert order[|out| + q] == d;
  }

  /** Going down in rank, no wait can go on for ever. */
  lemma {:induction false} RankEnds(bs: seq<Binding>, order: seq<nat>, m: nat, rank: seq<nat>, p: nat)
    requires IsOrder(order, |bs|) && AllWait(bs, order, m) && Ranked(bs, rank) && m <= p < |bs|
    ensures false
    decreases rank[order[p]]
  {
    hide Deps, IsOrder;
    OrderIs(order, |bs|);
    assert WaitsOn(bs, order, m, p);
    var q :| m <= q < |order| && order[q] in Deps(bs, order[p]);
    RankEnds(bs, order, m, rank, q);
  }

  function PosOf(order: seq<nat>, i: nat): (p: nat)
    requires i in order
    ensures p < |order| && order[p] == i
  {
    if order[0] == i then 0 else 1 + PosOf(order[1..], i)
  }

  lemma PositionsRank(bs: seq<Binding>, order: seq<nat>)
    requires SortedTo(bs, order, |bs|)
    ensures exists rank :: Ranked(bs, rank)
  {
    hide Deps;
    var n := |bs|;
    var rank := seq(n, i requires 0 <= i < n => PosOf(order, i));
    forall i, d | 0 <= i < n && d in Deps(bs, i) ensures d < n && rank[d] < rank[i] {
      var p := PosOf(order, i);
      assert d in Members(order[..p]);
      var q :| 0 <= q < p && order[q] == d;
      assert order[PosOf(order, d)] == order[q];
    }
    assert Ranked(bs, rank);
  }

  /** What each binding waits for, and those that wait for none. */
  method Start(bs: seq<Binding>) returns (inDeg: seq<nat>, queue: seq<nat>)
    ensures Emitted(bs, []) && Listed(bs, [], queue, []) && Counts(bs, inDeg, [], []) && Fifo(bs, [], queue)
  {
    hide Deps;
    inDeg, queue := [], [];
    for i := 0 to |bs|
      invariant |inDeg| == i && forall j :: 0 <= j < i ==> inDeg[j] == |Deps(bs, j)|
      invariant forall p, q :: 0 <= p < q < |queue| ==> queue[p] < queue[q]
      invariant forall j: nat :: j in queue <==> j < i && |Deps(bs, j)| == 0
    {
      assert forall p :: 0 <= p < |queue| ==> queue[p] in queue;
      inDeg := inDeg + [|Deps(bs, i)|];
      if inDeg[i] == 0 { queue := queue + [i]; }
    }
    FifoStart(bs, queue);
    forall i | 0 <= i < |bs| ensures Waiting(bs, i, []) == |Deps(bs, i)| { assert Deps(bs, i) - Members([]) == Deps(bs, i); }
  }

  lemma ListedCount(bs: seq<Binding>, out: seq<nat>, all: seq<nat>, late: seq<nat>)
    requires Listed(bs, out, all, late)
    ensures |all| <= |bs| && forall i :: 0 <= i < |all| ==> all[i] < |bs|
  {
    hide Deps;
    CountDistinct(all);
    CountBelow(|bs|);
    Fewer(Members(all), Below(|bs|));
    forall i | 0 <= i < |all| ensures all[i] < |bs| { assert all[i] in all; }
  }

  lemma {:induction false} Fewer(a: set<nat>, b: set<nat>)
    requires a <= b
    ensures |a| <= |b|
  {
    assert b == a + (b - a);
  }

  lemma NotEmitted(bs: seq<Binding>, out: seq<nat>, queue: seq<nat>)
    requires queue != [] && Listed(bs, out, out + queue, [])
    ensures queue[0] !in out
  {
    hide Waiting;
    var all := out + queue;
    assert all[|out|] == queue[0];
    forall p | 0 <= p < |out| ensures out[p] != queue[0] { assert all[p] == out[p]; }
  }

  /** Emit what waits for none, as long as there is any. */
  method Emit(bs: seq<Binding>) returns (out: seq<nat>)
    ensures Emitted(bs, out) && Listed(bs, out, out, []) && Fifo(bs, out, out)
  {
    hide Deps, Emitted, Listed, Counts, Fifo, AllReady;
    var inDeg: seq<nat>, queue: seq<nat> := Start(bs);
    out := [];
    assert [] + queue == queue;
    while queue != []
      invariant Emitted(bs, out) && Listed(bs, out, out + queue, []) && Counts(bs, inDeg, out, []) && Fifo(bs, out, out + queue)
      decreases |bs| - |out|
    {
      ListedReady(bs, out, out + queue, []);
      NotEmitted(bs, out, queue);
      FifoNext(bs, out, queue[0], out + queue);
      assert out + queue == out + [queue[0]] + queue[1..];
      EmitNext(bs, out, queue, inDeg);
      ListedCount(bs, out + [queue[0]], (out + [queue[0]]) + queue[1..], Users(bs, queue[0], |bs|));
      var x := queue[0];
      inDeg, queue := Release(bs, x, out, inDeg, queue[1..]);
      out := out + [x];
    }
    assert out + [] == out;
  }

  /** The emitted bindings, and then the others in the order listed. */
  method Assemble(bs: seq<Binding>, out: seq<nat>) returns (sorted: seq<Binding>)
    requires IsOrder(out + Others(out, |bs|), |bs|)
    ensures sorted == Along(bs, out + Others(out, |bs|))
  {
    hide IsOrder, Along;
    EmittedBelow(out, |bs|);
    sorted := Along(bs, out);
    assert out + Others(out, 0) == out;
    for i := 0 to |bs|
      invariant sorted == Along(bs, out + Others(out, i))
    {
      AlongNext(bs, out, i);
      if i !in out { sorted := sorted + [bs[i]]; }
    }
  }

  lemma EmittedBelow(out: seq<nat>, n: nat)
    requires IsOrder(out + Others(out, n), n)
    ensures forall i :: 0 <= i < |out| ==> out[i] < n
    ensures forall i, p :: 0 <= i <= n && 0 <= p < |out + Others(out, i)| ==> (out + Others(out, i))[p] < n
  {
    hide IsOrder;
    var order := out + Others(out, n);
    OrderIs(order, n);
    forall i | 0 <= i < |out| ensures out[i] < n { assert order[i] == out[i]; }
    forall i, p | 0 <= i <= n && 0 <= p < |out + Others(out, i)| ensures (out + Others(out, i))[p] < n {
      if p >= |out| { assert Others(out, i)[p - |out|] in Others(out, i); }
    }
  }

  lemma AlongNext(bs: seq<Binding>, out: seq<nat>, i: nat)
    requires i < |bs| && forall j, p :: 0 <= j <= |bs| && 0 <= p < |out + Others(out, j)| ==> (out + Others(out, j))[p] < |bs|
    ensures Along(bs, out + Others(out, i + 1)) == Along(bs, out + Others(out, i)) + (if i !in out then [bs[i]] else [])
  {
    var a, b := out + Others(out, i), out + Others(out, i + 1);
    assert b == if i !in out then a + [i] else a;
  }

  /** Kahn's algorithm, with the bindings left over at the end. All of them find
      their place exactly when mentions do not go round. */
  method Sort(bs: seq<Binding>) returns (sorted: seq<Binding>, ghost order: seq<nat>, ghost m: nat)
    ensures IsSort(bs, order, m) && sorted == Along(bs, order)
    ensures Fifo(bs, order[..m], order[..m])
    ensures m == |bs| <==> exists rank :: Ranked(bs, rank)
  {
    hide Deps, Emitted, Listed, AllWait, Ranked, Fifo;
    var out := Emit(bs);
    Leftover(bs, out);
    order, m := out + Others(out, |bs|), |out|;
    assert order[..m] == out;
    sorted := Assemble(bs, out);
    if m == |bs| {
      PositionsRank(bs, order);
    } else if rank :| Ranked(bs, rank) {
      RankEnds(bs, order, m, rank, m);
    }
  }

  // ---- Sorting after optimizing ----

  lemma SortedFollows(w: World, bs: seq<Binding>, order: seq<nat>, m: nat, p: nat)
    requires Unbound(w, bs) && SortedTo(bs, order, m) && p < m
    ensures Follows(Along(bs, order), p)
  {
    hide Unbound;
    var cs, i := Along(bs, order), order[p];
    assert cs[p] == bs[i];
    forall g | g in FreeVars(cs[p].expr) && g in KeysOf(cs) && g != KeyOf(cs[p]) ensures g in KeysOf(cs[..p]) {
      var q :| 0 <= q < |cs| && g == KeyOf(cs[q]);
      var j := order[q];
      assert cs[q] == bs[j];
      OwnName(w, bs, j);
      assert j in Deps(bs, i);
      assert j in Members(order[..p]);
      var r :| 0 <= r < p && order[r] == j;
      assert cs[..p][r] == bs[j];
    }
  }

  lemma OwnName(w: World, bs: seq<Binding>, j: nat)
    requires Unbound(w, bs) && j < |bs|
    ensures LastNamed(bs, j)
  {
  }

  lemma SameAlong(bs: seq<Binding>, a: seq<nat>, b: seq<nat>)
    requires IsOrder(a, |bs|) && IsOrder(b, |bs|)
    ensures SameBindings(Along(bs, a), Along(bs, b))
  {
    forall i | 0 <= i < |bs| ensures Along(bs, a)[i] in Along(bs, b) {
      assert a[i] in b;
      var j :| 0 <= j < |b| && b[j] == a[i];
      assert Along(bs, b)[j] == Along(bs, a)[i];
    }
    forall i | 0 <= i < |bs| ensures Along(bs, b)[i] in Along(bs, a) {
      assert b[i] in a;
      var j :| 0 <= j < |a| && a[j] == b[i];
      assert Along(bs, a)[j] == Along(bs, b)[i];
    }
  }

  /** A program that loads in some order loads as sorted, with the same result:
      without further condition where the sort finds a place for every binding,
      and else when the rest comes after what it came after before. */
  lemma LoadsSorted(w: World, bs: seq<Binding>, order: seq<nat>, sorted: seq<nat>, m: nat, done: World)
    requires Unbound(w, bs) && Foreign(w, bs) && IsOrder(order, |bs|) && Loads(w, Along(bs, order), done) && SortedTo(bs, sorted, m)
    requires forall k :: m <= k < |bs| ==> Behind(Along(bs, order), Along(bs, sorted), k)
    ensures Loads(w, Along(bs, sorted), done)
  {
    hide Loads, Unbound, Follows, Behind, Deps;
    var a, b := Along(bs, order), Along(bs, sorted);
    UnboundAlong(w, bs, order);
    UnboundAlong(w, bs, sorted);
    SameAlong(bs, order, sorted);
    ForeignAlong(w, bs, sorted);
    forall k | 0 <= k < m ensures Follows(b, k) { SortedFollows(w, bs, sorted, m, k); }
    LoadsReordered(w, a, b, m, done);
  }

  lemma ForeignAlong(w: World, bs: seq<Binding>, order: seq<nat>)
    requires Foreign(w, bs) && IsOrder(order, |bs|)
    ensures Foreign(w, Along(bs, order))
  {
    assert KeysOf(Along(bs, order)) == KeysOf(bs) by {
      forall i | 0 <= i < |bs| ensures KeyOf(bs[i]) in KeysOf(Along(bs, order)) {
        assert i in order;
        var j :| 0 <= j < |order| && order[j] == i;
        assert Along(bs, order)[j] == bs[i];
      }
    }
  }

  lemma {:induction false} NamesStay(cfg: Config, prog: seq<Binding>, n: nat)
    ensures forall i :: 0 <= i < |prog| ==> OptimizeAll(cfg, prog, n).0[i].name == prog[i].name
  {
    hide Optimize;
    if prog != [] {
      NamesStay(cfg, prog[1..], Optimize(cfg, prog[0].expr, n).1);
      var all := OptimizeAll(cfg, prog, n).0;
      forall i | 0 < i < |prog| ensures all[i].name == prog[i].name { assert all[1..][i - 1] == all[i] && prog[1..][i - 1] == prog[i]; }
    }
  }

  lemma SameNames(w: World, bs: seq<Binding>, cs: seq<Binding>)
    requires |bs| == |cs| && (forall i :: 0 <= i < |bs| ==> cs[i].name == bs[i].name) && Unbound(w, bs) && Foreign(w, bs)
    ensures Unbound(w, cs) && Foreign(w, cs)
  {
    assert KeysOf(cs) == KeysOf(bs);
  }

  /** A tidy program that loads in some order still loads once it is optimized
      and then sorted by what its bindings mention now, with the same first-order
      data, where the sort finds a place for every binding; else the rest has to
      come after what it came after before. */
  lemma OptimizeProgramReordered(w: World, external: Dicts, rules: seq<Rule>, prog: seq<Binding>, schs: seq<Scheme>, n: nat, order: seq<nat>, done: World, sorted: seq<nat>, m: nat)
    requires WorldOk(w) && Unbound(w, prog) && Foreign(w, prog) && IsOrder(order, |prog|)
    requires TidyProgram(w, external, ConfigOf(external, rules, prog), Along(prog, order), schs, n) && Loads(w, Along(prog, order), done)
    requires var now := OptimizeAll(ConfigOf(external, rules, prog), prog, n).0;
      SortedTo(now, sorted, m) && forall k :: m <= k < |now| ==> Behind(Along(now, order), Along(now, sorted), k)
    ensures LoadsLike(w, Along(OptimizeAll(ConfigOf(external, rules, prog), prog, n).0, sorted), done)
  {
    hide Loads, Unbound, TidyProgram, Behind, Deps, OptimizeAll, ConfigOf, Foreign;
    var cfg := ConfigOf(external, rules, prog);
    var now := OptimizeAll(cfg, prog, n).0;
    OptimizeProgramTidy(w, external, rules, prog, schs, n, order, done);
    NamesStay(cfg, prog, n);
    SameNames(w, prog, now);
    var done' :| Loads(w, Along(now, order), done') && done'.globals.Keys == done.globals.Keys
      && forall g :: g in done.globals && Ground(done.globals[g]) ==> done'.globals[g] == done.globals[g];
    LoadsSorted(w, now, order, sorted, m, done');
  }
}
