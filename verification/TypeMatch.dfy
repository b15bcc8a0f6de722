/**
  Type family equations: first-order matching of patterns with repeated
  variables against concrete types, and reduction by the first equation that
  matches.
 */
module TypeMatch {
  import opened Records

  /** Types as far as matching looks into them. Every other former is opaque. */
  datatype GType =
    | GVar(name: string)
    | GCon(name: string, level: int)
    | GApp(fun: GType, arg: GType, isGrade: bool)
    | GOther(id: nat)

  type Assignment = map<string, GType>

  /** Type equality: levels count, grade flags do not. */
  predicate EqualTy(a: GType, b: GType) {
    match a
    case GVar(x) => b.GVar? && b.name == x
    case GCon(c, l) => b.GCon? && b.name == c && b.level == l
    case GApp(f, x, _) => b.GApp? && EqualTy(f, b.fun) && EqualTy(x, b.arg)
    case GOther(i) => b.GOther? && b.id == i
  }

  /** The same type up to levels and grade flags. */
  predicate SameShape(a: GType, b: GType) {
    match a
    case GVar(x) => b.GVar? && b.name == x
    case GCon(c, _) => b.GCon? && b.name == c
    case GApp(f, x, _) => b.GApp? && SameShape(f, b.fun) && SameShape(x, b.arg)
    case GOther(i) => b.GOther? && b.id == i
  }

  /** The type without its grade flags. */
  function Ungraded(t: GType): GType {
    match t
    case GApp(f, x, _) => GApp(Ungraded(f), Ungraded(x), false)
    case _ => t
  }

  /** Types are equal exactly when they are the same but for grade flags. */
  lemma {:induction false} EqualIff(a: GType, b: GType)
    ensures EqualTy(a, b) <==> Ungraded(a) == Ungraded(b)
  {
    if a.GApp? && b.GApp? {
      EqualIff(a.fun, b.fun);
      EqualIff(a.arg, b.arg);
    }
  }

  lemma {:induction false} EqualRefl(a: GType)
    ensures EqualTy(a, a)
  {
    if a.GApp? {
      EqualRefl(a.fun);
      EqualRefl(a.arg);
    }
  }

  lemma {:induction false} EqualSym(a: GType, b: GType)
    requires EqualTy(a, b)
    ensures EqualTy(b, a)
  {
    if a.GApp? {
      EqualSym(a.fun, b.fun);
      EqualSym(a.arg, b.arg);
    }
  }

  lemma {:induction false} EqualTrans(a: GType, b: GType, c: GType)
    requires EqualTy(a, b) && EqualTy(b, c)
    ensures EqualTy(a, c)
  {
    if a.GApp? {
      EqualTrans(a.fun, b.fun, c.fun);
      EqualTrans(a.arg, b.arg, c.arg);
    }
  }

  lemma {:induction false} EqualSame(a: GType, b: GType)
    requires EqualTy(a, b)
    ensures SameShape(a, b)
  {
    if a.GApp? {
      EqualSame(a.fun, b.fun);
      EqualSame(a.arg, b.arg);
    }
  }

  // ---- What it means to match ----

  /** Under `s`, the pattern stands for `arg`: each variable for a type equal to
      what is there, "_" for anything, constructors compared by name. */
  predicate Instance(p: GType, s: Assignment, arg: GType) {
    match p
    case GVar(x) => x == "_" || (x in s && EqualTy(s[x], arg))
    case GCon(c, _) => arg.GCon? && arg.name == c
    case GApp(f, a, _) => arg.GApp? && Instance(f, s, arg.fun) && Instance(a, s, arg.arg)
    case GOther(i) => arg.GOther? && arg.id == i
  }

  predicate InstanceAll(ps: seq<GType>, s: Assignment, args: seq<GType>)
    requires |ps| == |args|
  {
    forall i :: 0 <= i < |ps| ==> Instance(ps[i], s, args[i])
  }

  function Vars(p: GType): set<string> {
    match p
    case GVar(x) => if x == "_" then {} else {x}
    case GApp(f, a, _) => Vars(f) + Vars(a)
    case _ => {}
  }

  predicate WildcardFree(p: GType) {
    match p
    case GVar(x) => x != "_"
    case GApp(f, a, _) => WildcardFree(f) && WildcardFree(a)
    case _ => true
  }

  /** `t` gives every variable of `s` an equal type. */
  predicate Agrees(t: Assignment, s: Assignment) { forall x :: x in s ==> x in t && EqualTy(t[x], s[x]) }

  predicate Extends(t: Assignment, s: Assignment) { forall x :: x in s ==> x in t && t[x] == s[x] }

  lemma {:induction false} InstanceExtends(p: GType, s: Assignment, t: Assignment, arg: GType)
    requires Instance(p, s, arg) && Extends(t, s)
    ensures Instance(p, t, arg)
  {
    if p.GApp? {
      InstanceExtends(p.fun, s, t, arg.fun);
      InstanceExtends(p.arg, s, t, arg.arg);
    }
  }

  // ---- Matching ----

  /** Matching succeeds exactly when some assignment agreeing with the given one
      makes the pattern an instance, and then it finds the least such. */
  method MatchConcretePattern(p: GType, arg: GType, s: Assignment) returns (ok: bool, s': Assignment)
    ensures ok ==> Extends(s', s) && s'.Keys == s.Keys + Vars(p) && Instance(p, s', arg)
    ensures ok ==> forall t :: Agrees(t, s) && Instance(p, t, arg) ==> Agrees(t, s')
    ensures !ok ==> forall t :: Agrees(t, s) ==> !Instance(p, t, arg)
    decreases p
  {
    match p {
      case GVar(x) =>
        if x == "_" {
          return true, s;
        }
        if x in s {
          ok, s' := EqualTy(s[x], arg), s;
          forall t | Agrees(t, s) && Instance(p, t, arg) ensures EqualTy(s[x], arg) {
            EqualSym(t[x], s[x]);
            EqualTrans(s[x], t[x], arg);
          }
        } else {
          ok, s' := true, s[x := arg];
          EqualRefl(arg);
        }
      case GCon(c, _) =>
        ok, s' := arg.GCon? && arg.name == c, s;
      case GApp(f, a, _) =>
        if !arg.GApp? {
          return false, s;
        }
        var s1;
        ok, s1 := MatchConcretePattern(f, arg.fun, s);
        if !ok {
          return false, s1;
        }
        ok, s' := MatchConcretePattern(a, arg.arg, s1);
        if ok { InstanceExtends(f, s1, s', arg.fun); }
      case GOther(_) =>
        ok, s' := EqualTy(p, arg), s;
    }
  }

  method MatchAll(ps: seq<GType>, args: seq<GType>) returns (ok: bool, s: Assignment)
    requires |ps| == |args|
    ensures ok ==> InstanceAll(ps, s, args) && s.Keys == VarsAll(ps)
    ensures ok ==> forall t :: InstanceAll(ps, t, args) ==> Agrees(t, s)
    ensures !ok ==> forall t :: !InstanceAll(ps, t, args)
  {
    s := map[];
    for i := 0 to |ps|
      invariant InstanceAll(ps[..i], s, args[..i]) && s.Keys == VarsAll(ps[..i])
      invariant forall t :: InstanceAll(ps[..i], t, args[..i]) ==> Agrees(t, s)
    {
      ghost var before := s;
      assert ps[..i + 1] == ps[..i] + [ps[i]] && args[..i + 1] == args[..i] + [args[i]];
      var found;
      found, s := MatchConcretePattern(ps[i], args[i], s);
      if !found {
        forall t ensures !InstanceAll(ps, t, args) {
          if InstanceAll(ps, t, args) { PrefixInstance(ps, t, args, i); }
        }
        return false, s;
      }
      forall j | 0 <= j < i ensures Instance(ps[j], s, args[j]) {
        assert Instance(ps[..i][j], before, args[..i][j]);
        InstanceExtends(ps[j], before, s, args[j]);
      }
      forall t | InstanceAll(ps[..i + 1], t, args[..i + 1]) ensures Agrees(t, s) {
        PrefixInstance(ps[..i + 1], t, args[..i + 1], i);
        assert ps[..i + 1][..i] == ps[..i] && args[..i + 1][..i] == args[..i];
      }
      VarsAllMore(ps[..i], ps[i]);
    }
    assert ps[..|ps|] == ps && args[..|ps|] == args;
    ok := true;
  }

  lemma PrefixInstance(ps: seq<GType>, t: Assignment, args: seq<GType>, i: nat)
    requires |ps| == |args| && i < |ps| && InstanceAll(ps, t, args)
    ensures InstanceAll(ps[..i], t, args[..i]) && Instance(ps[i], t, args[i])
  {
  }

  function VarsAll(ps: seq<GType>): set<string> { set i, x | 0 <= i < |ps| && x in Vars(ps[i]) :: x }

  lemma VarsAllMore(ps: seq<GType>, p: GType)
    ensures VarsAll(ps + [p]) == VarsAll(ps) + Vars(p)
  {
    var qs := ps + [p];
    forall x ensures x in VarsAll(qs) <==> x in VarsAll(ps) + Vars(p) {
      if x in VarsAll(ps) {
        var i :| 0 <= i < |ps| && x in Vars(ps[i]);
        assert qs[i] == ps[i];
      }
      if x in Vars(p) { assert qs[|ps|] == p; }
    }
  }

  // ---- Substitution ----

  function SubstType(t: GType, s: Assignment): GType {
    match t
    case GVar(x) => if x in s then s[x] else t
    case GApp(f, a, g) => GApp(SubstType(f, s), SubstType(a, s), g)
    case _ => t
  }

  /** The part of a type reached by going left (true) or right at applications. */
  function PartAt(t: GType, path: seq<bool>): Maybe<GType> {
    if path == [] then Just(t)
    else if t.GApp? then PartAt(if path[0] then t.fun else t.arg, path[1..])
    else Nothing
  }

  predicate Becomes(u: GType, s: Assignment, r: GType) {
    match u
    case GVar(x) => r == if x in s then s[x] else GVar(x)
    case GCon(c, l) => r == GCon(c, l)
    case GApp(_, _, g) => r.GApp? && r.isGrade == g
    case GOther(i) => r == GOther(i)
  }

  /** In every place substitution leaves constructors with their levels,
      applications with their grade flags, everything opaque, and variables that
      are not assigned; an assigned variable becomes what is assigned. */
  lemma {:induction false} SubstAt(t: GType, s: Assignment, path: seq<bool>)
    requires PartAt(t, path).Just?
    ensures PartAt(SubstType(t, s), path).Just? && Becomes(PartAt(t, path).value, s, PartAt(SubstType(t, s), path).value)
    decreases |path|
  {
    if path != [] { SubstAt(if path[0] then t.fun else t.arg, s, path[1..]); }
  }

  /** Substituting a matching assignment into a wildcard-free pattern gives the
      argument back, up to levels and grade flags. */
  lemma {:induction false} MatchSound(p: GType, s: Assignment, arg: GType)
    requires WildcardFree(p) && Instance(p, s, arg)
    ensures SameShape(SubstType(p, s), arg)
  {
    match p
    case GVar(x) => EqualSame(s[x], arg);
    case GApp(f, a, _) =>
      MatchSound(f, s, arg.fun);
      MatchSound(a, s, arg.arg);
    case _ =>
  }

  /** Conversely, whatever assignment turns the pattern into the argument makes
      it an instance, so matching succeeds and agrees with it. */
  lemma {:induction false} MatchComplete(p: GType, s: Assignment, arg: GType)
    requires Vars(p) <= s.Keys && EqualTy(SubstType(p, s), arg)
    ensures Instance(p, s, arg)
  {
    if p.GApp? {
      MatchComplete(p.fun, s, arg.fun);
      MatchComplete(p.arg, s, arg.arg);
    }
  }

  /** Equal assignments give equal results. */
  lemma {:induction false} SubstAgrees(t: GType, s: Assignment, s': Assignment)
    requires Agrees(s', s) && forall x :: x in Vars(t) ==> x in s
    requires "_" !in s && "_" !in s'
    ensures EqualTy(SubstType(t, s'), SubstType(t, s))
  {
    match t
    case GApp(f, a, _) =>
      SubstAgrees(f, s, s');
      SubstAgrees(a, s, s');
    case _ => EqualRefl(SubstType(t, s));
  }

  // ---- Equations ----

  datatype Equation = Equation(patterns: seq<GType>, rhs: GType)

  /** Some assignment makes the equation's patterns the arguments. */
  ghost predicate Applies(eq: Equation, args: seq<GType>) {
    |eq.patterns| == |args| && exists s :: InstanceAll(eq.patterns, s, args)
  }

  /** Reduction uses the first equation that applies, and nothing else. */
  method ReduceConcreteEqs(eqs: seq<Equation>, args: seq<GType>) returns (r: Maybe<GType>, ghost i: nat, ghost s: Assignment)
    ensures r.Nothing? <==> forall j :: 0 <= j < |eqs| ==> !Applies(eqs[j], args)
    ensures r.Just? ==> i < |eqs| && |eqs[i].patterns| == |args| && InstanceAll(eqs[i].patterns, s, args)
    ensures r.Just? ==> r.value == SubstType(eqs[i].rhs, s) && s.Keys == VarsAll(eqs[i].patterns)
    ensures r.Just? ==> forall j :: 0 <= j < i ==> !Applies(eqs[j], args)
    ensures r.Just? ==> forall t :: InstanceAll(eqs[i].patterns, t, args) ==> Agrees(t, s)
  {
    i, s := 0, map[];
    for k := 0 to |eqs|
      invariant forall j :: 0 <= j < k ==> !Applies(eqs[j], args)
    {
      if |eqs[k].patterns| == |args| {
        var matched, sub := MatchAll(eqs[k].patterns, args);
        if matched {
          assert Applies(eqs[k], args);
          return Just(SubstType(eqs[k].rhs, sub)), k, sub;
        }
      }
    }
    r := Nothing;
  }

  /** The result does not depend on which matching assignment is used. */
  lemma ReductUnique(eq: Equation, args: seq<GType>, s: Assignment, t: Assignment)
    requires |eq.patterns| == |args| && InstanceAll(eq.patterns, t, args) && Agrees(t, s)
    requires s.Keys == VarsAll(eq.patterns) && Vars(eq.rhs) <= s.Keys && "_" !in t
    ensures EqualTy(SubstType(eq.rhs, t), SubstType(eq.rhs, s))
  {
    forall i | 0 <= i < |eq.patterns| ensures "_" !in Vars(eq.patterns[i]) { NoWildcardVar(eq.patterns[i]); }
    SubstAgrees(eq.rhs, s, t);
  }

  lemma {:induction false} NoWildcardVar(p: GType)
    ensures "_" !in Vars(p)
  {
    if p.GApp? {
      NoWildcardVar(p.fun);
      NoWildcardVar(p.arg);
    }
  }
}
