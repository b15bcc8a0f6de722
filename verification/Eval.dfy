/**
  A call-by-value evaluator for type-erased nameless terms, in the order the
  bytecode machine evaluates: function before argument, constructor and record
  arguments left to right, first matching alternative of a case. Fuel counts
  the steps that enter a body. Primitive operations on first-order data and
  global bindings are parameters; a saturated effectful primitive is a value
  that nothing here runs.
 */
module Eval {
  import opened CoreIR
  import opened Nameless
  import opened Records

  datatype World = World(
    delta: (string, seq<Term>) -> Maybe<Term>,
    globals: map<VarKey, Term>)

  // ---- Type erasure ----

  /** Type abstractions and applications vanish, parameter types are dropped. */
  function Erase(t: Term): Term {
    match t
    case Bound(_) => t
    case Free(_) => t
    case Node(op, kids) =>
      if (op.OTyApp? || op.OTyLam?) && |kids| == 1 && kids[0].binds == 0 then
        assert kids[0].body < kids[0]; Erase(kids[0].body)
      else
        Node(EraseOp(op), EraseKids(kids))
  }

  function EraseKids(kids: seq<Kid>): seq<Kid> {
    seq(|kids|, i requires 0 <= i < |kids| =>
      assert kids[i].body < kids[i]; Kid(kids[i].binds, Erase(kids[i].body)))
  }

  function EraseOp(op: Op): Op { if op.OLam? then OLam(NoTy) else op }

  // ---- Values ----

  function Args(vs: seq<Term>): seq<Kid> {
    seq(|vs|, i requires 0 <= i < |vs| => Kid(0, vs[i]))
  }

  function Bodies(kids: seq<Kid>): seq<Term> {
    seq(|kids|, i requires 0 <= i < |kids| => kids[i].body)
  }

  predicate AllPlain(kids: seq<Kid>) { forall i :: 0 <= i < |kids| ==> kids[i].binds == 0 }

  predicate Deferred(op: Op, n: nat) { op.OPrim? && (op.isEffectful || n < op.arity) }

  ghost predicate IsValue(t: Term) {
    t.Node? &&
    match t.op
    case OLam(_) => |t.kids| == 1 && t.kids[0].binds == 1
    case OThunk => |t.kids| == 1 && t.kids[0].binds == 0
    case OLit(_) => t.kids == []
    case OCon(_, _) => AllPlain(t.kids) && KidsAreValues(t.kids)
    case OVariant(_) => |t.kids| == 1 && AllPlain(t.kids) && KidsAreValues(t.kids)
    case OPrim(_, _, _) => Deferred(t.op, |t.kids|) && AllPlain(t.kids) && KidsAreValues(t.kids)
    case ORecord(ls) =>
      |ls| == |t.kids| && AllPlain(t.kids) && KidsAreValues(t.kids) && Sorted(Zip(ls, Bodies(t.kids)))
    case _ => false
  }

  ghost predicate KidsAreValues(kids: seq<Kid>) {
    forall i :: 0 <= i < |kids| ==> (assert kids[i].body < kids[i]; IsValue(kids[i].body))
  }

  /** First-order data: what primitive operations accept and return. */
  predicate Ground(t: Term) {
    t.Node? && (t.op.OLit? || t.op.OCon? || t.op.ORecord? || t.op.OVariant?) &&
    forall i :: 0 <= i < |t.kids| ==> (assert t.kids[i].body < t.kids[i]; Ground(t.kids[i].body))
  }

  predicate AllGround(vs: seq<Term>) { forall i :: 0 <= i < |vs| ==> Ground(vs[i]) }

  function FieldsOf(v: Term): seq<Fd<Term>>
    requires v.Node? && v.op.ORecord? && |v.op.labels| == |v.kids|
  {
    Zip(v.op.labels, Bodies(v.kids))
  }

  function RecordOf(fs: seq<Fd<Term>>): Term { Node(ORecord(LabelsOf(fs)), Args(ValuesOf(fs))) }

  // ---- Pattern matching ----

  /** What a pattern binds in a value, left to right, or nothing if it fails. */
  function Match(p: Shape, v: Term): Maybe<seq<Term>> {
    match p
    case SVar => Just([v])
    case SWild => Just([])
    case SLit(l) => if v == Node(OLit(l), []) then Just([]) else Nothing
    case SCon(c, _, args) =>
      if v.Node? && v.op.OCon? && v.op.con == c && |v.kids| == |args|
      then MatchAll(args, Bodies(v.kids)) else Nothing
    case SRecord(fs) =>
      if v.Node? && v.op.ORecord? && |v.op.labels| == |v.kids| then MatchFields(fs, FieldsOf(v)) else Nothing
    case SLabel(l, hasPayload) =>
      if v.Node? && v.op.OVariant? && v.op.tag == "#" + l && |v.kids| == 1
      then Just(if hasPayload then [v.kids[0].body] else []) else Nothing
  }

  function MatchAll(ps: seq<Shape>, vs: seq<Term>): Maybe<seq<Term>>
    requires |ps| == |vs|
  {
    if ps == [] then Just([])
    else Join(Match(ps[0], vs[0]), MatchAll(ps[1..], vs[1..]))
  }

  function MatchFields(ps: seq<SField>, fs: seq<Fd<Term>>): Maybe<seq<Term>> {
    if ps == [] then Just([])
    else
      assert ps[0].pat < ps[0];
      match Get(fs, ps[0].lbl)
      case Nothing => Nothing
      case Just(v) => Join(Match(ps[0].pat, v), MatchFields(ps[1..], fs))
  }

  function Join(a: Maybe<seq<Term>>, b: Maybe<seq<Term>>): Maybe<seq<Term>> {
    if a.Just? && b.Just? then Just(a.value + b.value) else Nothing
  }

  datatype Choice = NoChoice | Choice(index: nat, bound: seq<Term>)

  function FirstMatch(ps: seq<Shape>, v: Term, from: nat): (c: Choice)
    requires from <= |ps|
    ensures c.Choice? ==> from <= c.index < |ps| && Match(ps[c.index], v) == Just(c.bound)
    decreases |ps| - from
  {
    if from == |ps| then NoChoice
    else match Match(ps[from], v)
      case Just(us) => Choice(from, us)
      case Nothing => FirstMatch(ps, v, from + 1)
  }

  function Rev(vs: seq<Term>): seq<Term> {
    seq(|vs|, i requires 0 <= i < |vs| => vs[|vs| - 1 - i])
  }

  // ---- Evaluation ----

  /** How many leading children are evaluated before the node acts. */
  function Strict(op: Op, n: nat): (k: nat)
    ensures k <= n
  {
    match op
    case OApp => n
    case OCon(_, _) => n
    case OPrim(_, _, _) => n
    case ORecord(_) => n
    case OUpdate(_) => n
    case OVariant(_) => n
    case OMerge(_, _) => n
    case OPure => n
    case OForce => n
    case OProj(_) => n
    case OCase(_) => if n > 0 then 1 else 0
    case OBind(_) => if n > 0 then 1 else 0
    case _ => 0
  }

  /** What a node does once those children have values: it is done, it goes on
      with a body whose indices are filled by `args`, or it is stuck. */
  datatype Next = Done(v: Term) | Go(body: Term, args: seq<Term>) | Stuck

  function PrimResult(w: World, op: Op, vs: seq<Term>): Next
    requires op.OPrim?
  {
    if Deferred(op, |vs|) then Done(Node(op, Args(vs)))
    else if |vs| == op.arity && AllGround(vs) then
      match w.delta(op.prim, vs)
      case Just(v) => if GroundValue(v) then Done(v) else Stuck
      case Nothing => Stuck
    else Stuck
  }

  /** A first-order result in the form evaluation gives it. */
  predicate GroundValue(v: Term) {
    Ground(v) && Canonical(v)
  }

  predicate Canonical(v: Term) {
    v.Node? &&
    (match v.op
     case OLit(_) => v.kids == []
     case OCon(_, _) => AllPlain(v.kids)
     case OVariant(_) => |v.kids| == 1 && AllPlain(v.kids)
     case ORecord(ls) => |ls| == |v.kids| && AllPlain(v.kids) && Put([], FieldsOf(v)) == FieldsOf(v) && Uniq(ls)
     case _ => false) &&
    forall i :: 0 <= i < |v.kids| ==> (assert v.kids[i].body < v.kids[i]; Canonical(v.kids[i].body))
  }

  predicate Uniq(ls: seq<string>) { forall i, j :: 0 <= i < j < |ls| ==> ls[i] != ls[j] }

  function ApplyStep(w: World, f: Term, a: Term): Next {
    if !f.Node? then Stuck
    else match f.op
      case OLam(_) => if |f.kids| == 1 && f.kids[0].binds == 1 then Go(f.kids[0].body, [a]) else Stuck
      case OThunk => if |f.kids| == 1 && f.kids[0].binds == 0 then Go(f.kids[0].body, []) else Stuck
      case OCon(_, _) => Done(Node(f.op, Args(Bodies(f.kids) + [a])))
      case OPrim(_, _, _) => PrimResult(w, f.op, Bodies(f.kids) + [a])
      case _ => Stuck
  }

  function CaseStep(ps: seq<Shape>, v: Term, alts: seq<Kid>): Next {
    match FirstMatch(ps, v, 0)
    case NoChoice => Stuck
    case Choice(i, us) =>
      if |alts| == |ps| && alts[i].binds == |us| then Go(alts[i].body, Rev(us)) else Stuck
  }

  function Finish(w: World, op: Op, vs: seq<Term>, rest: seq<Kid>): Next {
    match op
    case OLam(_) => if |rest| == 1 && rest[0].binds == 1 then Done(Node(op, rest)) else Stuck
    case OThunk => if |rest| == 1 && rest[0].binds == 0 then Done(Node(op, rest)) else Stuck
    case OLit(_) => if rest == [] then Done(Node(op, [])) else Stuck
    case OApp => if |vs| == 2 then ApplyStep(w, vs[0], vs[1]) else Stuck
    case OCon(_, _) => Done(Node(op, Args(vs)))
    case OPure => if |vs| == 1 then Done(vs[0]) else Stuck
    case OVariant(_) => if |vs| == 1 then Done(Node(op, Args(vs))) else Stuck
    case OPrim(_, _, _) => PrimResult(w, op, vs)
    case OCase(ps) => if |vs| == 1 then CaseStep(ps, vs[0], rest) else Stuck
    case OBind(_) =>
      if |vs| == 1 && |rest| == 1 && rest[0].binds == 1 && !RunsEffect(vs[0]) then Go(rest[0].body, vs) else Stuck
    case OForce =>
      if |vs| == 1 && vs[0].Node? && vs[0].op.OThunk? && |vs[0].kids| == 1 && vs[0].kids[0].binds == 0
      then Go(vs[0].kids[0].body, []) else Stuck
    case OFix => if |rest| == 1 && rest[0].binds == 1 then Go(rest[0].body, [Node(op, rest)]) else Stuck
    case OMerge(_, _) => if |vs| == 2 then Done(Node(ORecord(["_1", "_2"]), Args(vs))) else Stuck
    case ORecord(ls) => if |ls| == |vs| && Uniq(ls) then Done(RecordOf(Put([], Zip(ls, vs)))) else Stuck
    case OProj(l) => if |vs| == 1 then ProjStep(vs[0], l) else Stuck
    case OUpdate(ls) => if |vs| == 1 + |ls| && Uniq(ls) then UpdateStep(vs[0], Zip(ls, vs[1..])) else Stuck
    case _ => Stuck
  }

  /** A computation whose effect a bind would have to run. */
  predicate RunsEffect(v: Term) {
    v.Node? && v.op.OPrim? && v.op.isEffectful && |v.kids| >= v.op.arity
  }

  function ProjStep(v: Term, l: string): Next {
    if v.Node? && v.op.ORecord? && |v.op.labels| == |v.kids| then
      match Get(FieldsOf(v), l)
      case Just(x) => Done(x)
      case Nothing => Stuck
    else Stuck
  }

  function UpdateStep(v: Term, us: seq<Fd<Term>>): Next {
    if v.Node? && v.op.ORecord? && |v.op.labels| == |v.kids| then Done(RecordOf(Put(FieldsOf(v), us))) else Stuck
  }

  function Ev(w: World, n: nat, t: Term): Maybe<Term>
    decreases n, 1, t
  {
    match t
    case Bound(_) => Nothing
    case Free(k) => if k in w.globals then Just(w.globals[k]) else Nothing
    case Node(op, kids) =>
      var k := Strict(op, |kids|);
      match EvAll(w, n, kids, k)
      case Nothing => Nothing
      case Just(vs) => Run(w, n, Finish(w, op, vs, kids[k..]))
  }

  function Run(w: World, n: nat, next: Next): Maybe<Term>
    decreases n, 0
  {
    match next
    case Done(v) => Just(v)
    case Go(b, us) => if n == 0 then Nothing else Ev(w, n - 1, Instantiate(b, us))
    case Stuck => Nothing
  }

  /** The values of the first `k` children, none of which is under a binder. */
  function EvAll(w: World, n: nat, kids: seq<Kid>, k: nat): (r: Maybe<seq<Term>>)
    requires k <= |kids|
    ensures r.Just? ==> |r.value| == k
    decreases n, 1, kids, k
  {
    if k == 0 then Just([])
    else
      assert kids[k - 1].body < kids[k - 1];
      if kids[k - 1].binds != 0 then Nothing
      else match EvAll(w, n, kids, k - 1)
        case Nothing => Nothing
        case Just(vs) =>
          match Ev(w, n, kids[k - 1].body)
          case Nothing => Nothing
          case Just(v) => Just(vs + [v])
  }
}
