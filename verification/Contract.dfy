/**
  The rewrites of the optimizer as contractions of nameless terms.

  `Exact` contractions keep the value a term evaluates to. `Substitutive` ones
  fill a body with terms that have not been evaluated yet.
 */
module Contract {
  import opened Nameless
  import opened Records
  import opened Eval

  // ---- Substitutive contractions ----

  /** App (Lam b) a  ->  b[a] */
  ghost predicate Beta(u: Term, t: Term) {
    && u.Node? && u.op.OApp? && |u.kids| == 2 && AllPlain(u.kids)
    && var f := u.kids[0].body;
      f.Node? && f.op.OLam? && |f.kids| == 1 && f.kids[0].binds == 1
      && t == Instantiate(f.kids[0].body, [u.kids[1].body])
  }

  /** Bind (Pure e) b  ->  b[e] */
  ghost predicate BindPure(u: Term, t: Term) {
    && u.Node? && u.op.OBind? && |u.kids| == 2 && u.kids[0].binds == 0 && u.kids[1].binds == 1
    && var c := u.kids[0].body;
      c.Node? && c.op.OPure? && |c.kids| == 1 && c.kids[0].binds == 0
      && t == Instantiate(u.kids[1].body, [c.kids[0].body])
  }

  /** The number of variables a pattern binds. */
  function Width(p: Shape): nat {
    match p
    case SVar => 1
    case SCon(_, _, args) => WidthAll(args)
    case SRecord(fs) => WidthFields(fs)
    case SLabel(_, hasPayload) => if hasPayload then 1 else 0
    case _ => 0
  }

  function WidthAll(ps: seq<Shape>): nat {
    if ps == [] then 0 else Width(ps[0]) + WidthAll(ps[1..])
  }

  function WidthFields(ps: seq<SField>): nat {
    if ps == [] then 0 else assert ps[0].pat < ps[0]; Width(ps[0].pat) + WidthFields(ps[1..])
  }

  predicate IsLiteralRecord(s: Term) {
    s.Node? && s.op.ORecord? && |s.op.labels| == |s.kids| && AllPlain(s.kids)
  }

  function ProjOf(s: Term, l: string): Term { Node(OProj(l), [Kid(0, s)]) }

  /** `cs` are terms for the variables of `p` when it is matched against `s`:
      parts of `s` where `s` shows them, projections of it where it does not. */
  ghost predicate Collects(p: Shape, s: Term, cs: seq<Term>) {
    match p
    case SVar => cs == [s]
    case SWild => cs == []
    case SLit(l) => cs == [] && s == Node(OLit(l), [])
    case SCon(c, _, args) =>
      s.Node? && s.op.OCon? && s.op.con == c && |s.kids| == |args| && AllPlain(s.kids)
      && CollectsAll(args, Bodies(s.kids), cs)
    case SRecord(fs) => CollectsFields(fs, s, cs)
    case SLabel(_, _) => false
  }

  ghost predicate CollectsAll(ps: seq<Shape>, ss: seq<Term>, cs: seq<Term>)
    requires |ps| == |ss|
  {
    if ps == [] then cs == []
    else
      var k := Width(ps[0]);
      k <= |cs| && Collects(ps[0], ss[0], cs[..k]) && CollectsAll(ps[1..], ss[1..], cs[k..])
  }

  ghost predicate CollectsFields(ps: seq<SField>, s: Term, cs: seq<Term>) {
    if ps == [] then cs == []
    else
      assert ps[0].pat < ps[0];
      var k := Width(ps[0].pat);
      k <= |cs| && CollectsFields(ps[1..], s, cs[k..])
      && (Collects(ps[0].pat, ProjOf(s, ps[0].lbl), cs[..k])
          || (IsLiteralRecord(s) && Get(FieldsOf(s), ps[0].lbl).Just?
              && Collects(ps[0].pat, Get(FieldsOf(s), ps[0].lbl).value, cs[..k])))
  }

  /** `p` matches whatever `s` evaluates to. */
  ghost predicate Certain(p: Shape, s: Term) {
    match p
    case SVar => true
    case SWild => true
    case SLit(l) => s == Node(OLit(l), [])
    case SCon(c, _, args) =>
      s.Node? && s.op.OCon? && s.op.con == c && |s.kids| == |args| && AllPlain(s.kids)
      && forall i :: 0 <= i < |args| ==> Certain(args[i], s.kids[i].body)
    case SRecord(fs) =>
      IsLiteralRecord(s) && forall i :: 0 <= i < |fs| ==>
        (assert fs[i].pat < fs[i];
         Get(FieldsOf(s), fs[i].lbl).Just? && Certain(fs[i].pat, Get(FieldsOf(s), fs[i].lbl).value))
    case SLabel(_, _) => false
  }

  /** `p` fails on whatever the constructor or literal `s` evaluates to. */
  predicate Misses(p: Shape, s: Term) {
    && s.Node?
    && ((s.op.OCon? && AllPlain(s.kids)
         && (p.SLit? || p.SRecord? || p.SLabel? || (p.SCon? && (p.con != s.op.con || |p.args| != |s.kids|))))
        || (s.op.OLit? && s.kids == []
            && (p.SCon? || p.SRecord? || p.SLabel? || (p.SLit? && p.value != s.op.value))))
  }

  /** The alternative `i` is the one first-match evaluation takes. */
  ghost predicate Picks(ps: seq<Shape>, s: Term, i: nat)
    requires i < |ps|
  {
    && (forall j :: 0 <= j < i ==> Misses(ps[j], s))
    && (Certain(ps[i], s) || forall j :: i < j < |ps| ==> Misses(ps[j], s))
  }

  /** Case s alts  ->  the alternative that must match, filled with parts of s */
  ghost predicate KnownCaseAt(u: Term, t: Term, i: nat, cs: seq<Term>) {
    && u.Node? && u.op.OCase? && |u.kids| == 1 + |u.op.pats| && u.kids[0].binds == 0
    && i < |u.op.pats| && u.kids[i + 1].binds == |cs|
    && Collects(u.op.pats[i], u.kids[0].body, cs) && Picks(u.op.pats, u.kids[0].body, i)
    && t == Instantiate(u.kids[i + 1].body, Rev(cs))
  }

  ghost predicate KnownCase(u: Term, t: Term) { exists i: nat, cs :: KnownCaseAt(u, t, i, cs) }

  ghost predicate Substitutive(u: Term, t: Term) { Beta(u, t) || BindPure(u, t) || KnownCase(u, t) }

  // ---- Exact contractions ----

  /** Force (Thunk c)  ->  c */
  ghost predicate ForceThunk(u: Term, t: Term) {
    && u.Node? && u.op.OForce? && |u.kids| == 1 && u.kids[0].binds == 0
    && var c := u.kids[0].body;
      c.Node? && c.op.OThunk? && |c.kids| == 1 && c.kids[0].binds == 0 && t == c.kids[0].body
  }

  /** { .. l: e .. }.l  ->  e */
  ghost predicate ProjKnown(u: Term, t: Term) {
    && u.Node? && u.op.OProj? && |u.kids| == 1 && u.kids[0].binds == 0
    && IsLiteralRecord(u.kids[0].body) && Get(FieldsOf(u.kids[0].body), u.op.lbl) == Just(t)
  }

  predicate IsUpdate(u: Term) { u.Node? && u.op.OUpdate? && |u.kids| == 1 + |u.op.labels| && AllPlain(u.kids) }

  function UpdatesOf(u: Term): seq<Fd<Term>>
    requires IsUpdate(u)
  {
    Zip(u.op.labels, Bodies(u.kids[1..]))
  }

  function UpdateNode(r: Term, us: seq<Fd<Term>>): Term {
    Node(OUpdate(LabelsOf(us)), [Kid(0, r)] + Args(ValuesOf(us)))
  }

  /** { { r | us } | vs }  ->  { r | us without the labels of vs, vs } */
  ghost predicate UpdateChain(u: Term, t: Term) {
    && IsUpdate(u) && IsUpdate(u.kids[0].body)
    && var inner := u.kids[0].body;
      t == UpdateNode(inner.kids[0].body, Unshadowed(UpdatesOf(inner), u.op.labels) + UpdatesOf(u))
  }

  /** App (Prim as) a  ->  Prim (as, a)  while unsaturated */
  ghost predicate PrimAbsorb(u: Term, t: Term) {
    && u.Node? && u.op.OApp? && |u.kids| == 2 && AllPlain(u.kids)
    && var p := u.kids[0].body;
      p.Node? && p.op.OPrim? && |p.kids| < p.op.arity && AllPlain(p.kids)
      && t == Node(p.op, p.kids + [u.kids[1]])
  }

  /** The continuation `op`, `rest` moved into every alternative. */
  function Pushed(op: Op, alts: seq<Kid>, rest: seq<Kid>): seq<Kid> {
    seq(|alts|, i requires 0 <= i < |alts| =>
      Kid(alts[i].binds, Node(op, [Kid(0, alts[i].body)] + ShiftKids(rest, alts[i].binds, 0))))
  }

  predicate IsCase(t: Term) { t.Node? && t.op.OCase? && |t.kids| == 1 + |t.op.pats| && t.kids[0].binds == 0 }

  /** Case (Case s as) bs  ->  Case s (as pushed into), and the same for Bind */
  ghost predicate CommuteCase(u: Term, t: Term) {
    && u.Node? && (u.op.OCase? || u.op.OBind?) && |u.kids| > 0 && u.kids[0].binds == 0
    && var c := u.kids[0].body;
      IsCase(c) && t == Node(c.op, [c.kids[0]] + Pushed(u.op, c.kids[1..], u.kids[1..]))
  }

  ghost predicate Exact(u: Term, t: Term) {
    ForceThunk(u, t) || ProjKnown(u, t) || UpdateChain(u, t) || PrimAbsorb(u, t) || CommuteCase(u, t)
  }

  ghost predicate Contracts(u: Term, t: Term) { Substitutive(u, t) || Exact(u, t) }

  /** Values are never contracted. */
  lemma NoValueContracts(v: Term, t: Term)
    requires v.Node? && !v.op.OApp? && !v.op.OBind? && !v.op.OCase? && !v.op.OForce? && !v.op.OProj? && !v.op.OUpdate?
    ensures !Contracts(v, t)
  {
  }
}
