/**
  The nameless (de Bruijn) form of Core: a term is a bound index, a free
  variable, or a labelled node whose children say how many indices they are
  under. Substitution here is the textbook definition, stated without any
  names, so it is the reference that named substitution is measured against.
 */
module Nameless {
  import opened CoreIR

  /** A pattern without its variable names. */
  datatype Shape =
    | SVar
    | SWild
    | SCon(con: string, mod: string, args: seq<Shape>)
    | SRecord(fields: seq<SField>)
    | SLit(value: Literal)
    | SLabel(lbl: string, hasPayload: bool)

  datatype SField = SField(lbl: string, pat: Shape)

  /** The label of a node: its former and all payload that is not a term. */
  datatype Op =
    | OLam(paramType: Ty)
    | OApp
    | OTyApp(tyArg: Ty)
    | OTyLam(tyParam: Name, kind: Ty)
    | OCon(con: string, mod: string)
    | OCase(pats: seq<Shape>)
    | OFix
    | OPure
    | OBind(isDiscard: bool)
    | OThunk
    | OForce
    | OMerge(leftLabels: seq<string>, rightLabels: seq<string>)
    | OPrim(prim: string, arity: nat, isEffectful: bool)
    | OLit(value: Literal)
    | OError
    | ORecord(labels: seq<string>)
    | OProj(lbl: string)
    | OUpdate(labels: seq<string>)
    | OVariant(tag: string)

  datatype Term =
    | Bound(index: nat)
    | Free(key: VarKey)
    | Node(op: Op, kids: seq<Kid>)

  /** A child under `binds` new indices. */
  datatype Kid = Kid(binds: nat, body: Term)

  // ---- Shifting ----

  /** Raise every index at or above `c` by `k`. */
  function Shift(t: Term, k: nat, c: nat): Term {
    match t
    case Bound(i) => if i < c then t else Bound(i + k)
    case Free(_) => t
    case Node(op, kids) => Node(op, ShiftKids(kids, k, c))
  }

  function ShiftKids(kids: seq<Kid>, k: nat, c: nat): seq<Kid> {
    seq(|kids|, i requires 0 <= i < |kids| =>
      assert kids[i].body < kids[i]; Kid(kids[i].binds, Shift(kids[i].body, k, c + kids[i].binds)))
  }

  lemma {:induction false} ShiftZero(t: Term, c: nat)
    ensures Shift(t, 0, c) == t
  {
    if t.Node? {
      forall i | 0 <= i < |t.kids| { ShiftZero(t.kids[i].body, c + t.kids[i].binds); }
      assert ShiftKids(t.kids, 0, c) == t.kids;
    }
  }

  lemma {:induction false} ShiftShift(t: Term, k: nat, c: nat, m: nat, d: nat)
    requires c <= d <= c + k
    ensures Shift(Shift(t, k, c), m, d) == Shift(t, k + m, c)
  {
    if t.Node? {
      forall i | 0 <= i < |t.kids| {
        ShiftShift(t.kids[i].body, k, c + t.kids[i].binds, m, d + t.kids[i].binds);
      }
      assert ShiftKids(ShiftKids(t.kids, k, c), m, d) == ShiftKids(t.kids, k + m, c);
    }
  }

  // ---- Substitution ----

  /** What to put for the indices (and free locals) outside the binders already
      passed: `Inst(us)` fills the first |us| indices and lowers the rest,
      `Globals(m)` replaces free unqualified variables, `Raise(k)` renumbers. */
  datatype Sub = Inst(us: seq<Term>) | Globals(m: map<Name, Term>) | Raise(k: nat)

  function At(s: Sub, j: nat): Term {
    match s
    case Inst(us) => if j < |us| then us[j] else Bound(j - |us|)
    case Globals(_) => Bound(j)
    case Raise(k) => Bound(j + k)
  }

  function AtFree(s: Sub, key: VarKey): Term {
    if s.Globals? && key.mod == "" && key.name in s.m then s.m[key.name] else Free(key)
  }

  /** Apply `s` under `c` binders. */
  function Act(t: Term, s: Sub, c: nat): Term {
    match t
    case Bound(i) => if i < c then t else Shift(At(s, i - c), c, 0)
    case Free(key) => Shift(AtFree(s, key), c, 0)
    case Node(op, kids) => Node(op, ActKids(kids, s, c))
  }

  function ActKids(kids: seq<Kid>, s: Sub, c: nat): seq<Kid> {
    seq(|kids|, i requires 0 <= i < |kids| =>
      assert kids[i].body < kids[i]; Kid(kids[i].binds, Act(kids[i].body, s, c + kids[i].binds)))
  }

  function Instantiate(t: Term, us: seq<Term>): Term { Act(t, Inst(us), 0) }

  lemma {:induction false} RaiseIsShift(t: Term, k: nat, c: nat)
    ensures Act(t, Raise(k), c) == Shift(t, k, c)
  {
    if t.Node? {
      forall i | 0 <= i < |t.kids| { RaiseIsShift(t.kids[i].body, k, c + t.kids[i].binds); }
      assert ActKids(t.kids, Raise(k), c) == ShiftKids(t.kids, k, c);
    }
  }

  /** Substitution commutes with weakening at a smaller level. */
  lemma {:induction false} ActShift(t: Term, s: Sub, c: nat, m: nat, d: nat)
    requires d <= c
    ensures Act(Shift(t, m, d), s, c + m) == Shift(Act(t, s, c), m, d)
  {
    match t
    case Bound(i) =>
      if i >= c { ShiftShift(At(s, i - c), c, 0, m, d); }
    case Free(key) =>
      ShiftShift(AtFree(s, key), c, 0, m, d);
    case Node(op, kids) =>
      forall i | 0 <= i < |kids|
        ensures Act(Shift(kids[i].body, m, d + kids[i].binds), s, c + m + kids[i].binds)
             == Shift(Act(kids[i].body, s, c + kids[i].binds), m, d + kids[i].binds)
      {
        ActShift(kids[i].body, s, c + kids[i].binds, m, d + kids[i].binds);
        assert c + kids[i].binds + m == c + m + kids[i].binds;
      }
      assert ActKids(ShiftKids(kids, m, d), s, c + m) == ShiftKids(ActKids(kids, s, c), m, d);
  }

  /** Instantiating freshly raised indices gives the term back. */
  lemma {:induction false} InstShift(t: Term, us: seq<Term>, k: nat, c: nat, d: nat)
    requires d <= c && c + |us| <= d + k
    ensures Act(Shift(t, k, d), Inst(us), c) == Shift(t, k - |us|, d)
  {
    match t
    case Bound(i) =>
    case Free(key) =>
    case Node(op, kids) =>
      forall i | 0 <= i < |kids| {
        InstShift(kids[i].body, us, k, c + kids[i].binds, d + kids[i].binds);
      }
      assert ActKids(ShiftKids(kids, k, d), Inst(us), c) == ShiftKids(kids, k - |us|, d);
  }

  function ActAll(us: seq<Term>, s: Sub, c: nat): seq<Term> {
    seq(|us|, i requires 0 <= i < |us| => Act(us[i], s, c))
  }

  lemma ActInstBound(i: nat, us: seq<Term>, s: Sub, c: nat, d: nat)
    ensures Act(Act(Bound(i), Inst(us), d), s, c + d)
         == Act(Act(Bound(i), s, c + |us| + d), Inst(ActAll(us, s, c)), d)
  {
    var vs := ActAll(us, s, c);
    if i < d {
    } else if i < d + |us| {
      ActShift(us[i - d], s, c, d, 0);
    } else if i < d + |us| + c {
    } else {
      InstShift(At(s, i - (c + |us| + d)), vs, c + |us| + d, d, 0);
    }
  }

  /** Substitution distributes over instantiation. */
  lemma {:induction false} ActInst(t: Term, us: seq<Term>, s: Sub, c: nat, d: nat)
    ensures Act(Act(t, Inst(us), d), s, c + d) == Act(Act(t, s, c + |us| + d), Inst(ActAll(us, s, c)), d)
  {
    match t
    case Bound(i) => ActInstBound(i, us, s, c, d);
    case Free(key) => InstShift(AtFree(s, key), ActAll(us, s, c), c + |us| + d, d, 0);
    case Node(op, kids) => ActInstKids(kids, us, s, c, d);
  }

  lemma {:induction false} ActInstKids(kids: seq<Kid>, us: seq<Term>, s: Sub, c: nat, d: nat)
    ensures ActKids(ActKids(kids, Inst(us), d), s, c + d)
         == ActKids(ActKids(kids, s, c + |us| + d), Inst(ActAll(us, s, c)), d)
  {
    var vs := ActAll(us, s, c);
    forall i | 0 <= i < |kids|
      ensures Act(Act(kids[i].body, Inst(us), d + kids[i].binds), s, c + d + kids[i].binds)
           == Act(Act(kids[i].body, s, c + |us| + d + kids[i].binds), Inst(vs), d + kids[i].binds)
    {
      var b := kids[i].binds;
      assert kids[i].body < kids[i];
      ActInst(kids[i].body, us, s, c, d + b);
      assert c + (d + b) == c + d + b && c + |us| + (d + b) == c + |us| + d + b;
    }
  }
}
