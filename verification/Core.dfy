/**
  The Core intermediate representation: twenty term formers with named
  binders, six pattern forms, free variables and node count.

  Every analysis below goes through two views of a node: `OpOf`, its label
  with all non-term payload, and `Scopes`, its immediate subterms together
  with the names each one is under.
 */
module CoreIR {

  type Name = string

  /** Types are inert payload here, except for type-variable substitution. */
  datatype Ty =
    | TyVar(tyName: Name)
    | TyCon(tyName: Name)
    | TyApply(fun: Ty, arg: Ty)
    | TyArrow(from: Ty, to: Ty)
    | NoTy

  datatype Literal = IntLit(i: int) | DoubleLit(d: real) | StringLit(s: string) | RuneLit(code: int)

  datatype VarKey = VarKey(mod: string, name: Name)

  datatype Pattern =
    | PVar(name: Name)
    | PWild
    | PCon(con: string, mod: string, args: seq<Pattern>)
    | PRecord(fields: seq<PField>)
    | PLit(value: Literal)
    | PLabel(lbl: string, payload: Name)  // payload "" discards the payload

  datatype PField = PField(lbl: string, pat: Pattern)

  datatype Core =
    | Var(name: Name, mod: string)
    | Lam(param: Name, paramType: Ty, body: Core)
    | App(fun: Core, arg: Core)
    | TyApp(expr: Core, tyArg: Ty)
    | TyLam(tyParam: Name, kind: Ty, body: Core)
    | Con(con: string, mod: string, args: seq<Core>)
    | Case(scrutinee: Core, alts: seq<Alt>)
    | Fix(name: Name, body: Core)
    | Pure(expr: Core)
    | Bind(comp: Core, bvar: Name, isDiscard: bool, body: Core)
    | Thunk(comp: Core)
    | Force(expr: Core)
    | Merge(left: Core, right: Core, leftLabels: seq<string>, rightLabels: seq<string>)
    | PrimOp(prim: string, arity: nat, isEffectful: bool, args: seq<Core>)
    | Lit(value: Literal)
    | Error
    | RecordLit(fields: seq<Field>)
    | RecordProj(record: Core, lbl: string)
    | RecordUpdate(record: Core, updates: seq<Field>)
    | VariantLit(tag: string, payload: Core)

  datatype Alt = Alt(pat: Pattern, body: Core)

  datatype Field = Field(lbl: string, value: Core)

  // ---- Patterns ----

  function Flat<T>(ss: seq<seq<T>>): seq<T> {
    if ss == [] then [] else ss[0] + Flat(ss[1..])
  }

  /** The names a pattern binds, left to right. */
  function Bindings(p: Pattern): seq<Name> {
    match p
    case PVar(x) => [x]
    case PCon(_, _, args) => Flat(seq(|args|, i requires 0 <= i < |args| => Bindings(args[i])))
    case PRecord(fs) => Flat(seq(|fs|, i requires 0 <= i < |fs| => Bindings(fs[i].pat)))
    case PLabel(_, y) => if y == "" then [] else [y]
    case _ => []
  }

  /** The names bound by label payloads, which neither the free-variable
      traversal nor pattern renaming looks at. */
  function PayloadVars(p: Pattern): set<Name> {
    match p
    case PCon(_, _, args) => set i, x | 0 <= i < |args| && x in PayloadVars(args[i]) :: x
    case PRecord(fs) => set i, x | 0 <= i < |fs| && x in PayloadVars(fs[i].pat) :: x
    case PLabel(_, y) => if y == "" then {} else {y}
    case _ => {}
  }

  /** The names the free-variable traversal removes for a pattern. */
  function PatternVars(p: Pattern): set<Name> {
    match p
    case PVar(x) => {x}
    case PCon(_, _, args) => set i, x | 0 <= i < |args| && x in PatternVars(args[i]) :: x
    case PRecord(fs) => set i, x | 0 <= i < |fs| && x in PatternVars(fs[i].pat) :: x
    case _ => {}
  }

  ghost predicate Distinct<T(!new)>(s: seq<T>) {
    forall i, j :: 0 <= i < j < |s| ==> s[i] != s[j]
  }

  // ---- Node views ----

  /** A subterm `body` in the scope of `names`; `dropped` are the names the
      free-variable traversal removes on the way out of that scope. */
  datatype Under = Under(names: seq<Name>, dropped: set<Name>, body: Core)

  function Plain(e: Core): Under { Under([], {}, e) }

  function Scopes(e: Core): (ss: seq<Under>)
    ensures forall i :: 0 <= i < |ss| ==> ss[i].body < e
  {
    match e
    case Var(_, _) => []
    case Lam(x, _, b) => [Under([x], {x}, b)]
    case App(f, a) => [Plain(f), Plain(a)]
    case TyApp(x, _) => [Plain(x)]
    case TyLam(_, _, b) => [Plain(b)]
    case Con(_, _, args) => seq(|args|, i requires 0 <= i < |args| => Plain(args[i]))
    case Case(s, alts) =>
      [Plain(s)] + seq(|alts|, i requires 0 <= i < |alts| =>
        Under(Bindings(alts[i].pat), PatternVars(alts[i].pat), alts[i].body))
    case Fix(f, b) => [Under([f], {f}, b)]
    case Pure(x) => [Plain(x)]
    case Bind(c, x, _, b) => [Plain(c), Under([x], {x}, b)]
    case Thunk(c) => [Plain(c)]
    case Force(x) => [Plain(x)]
    case Merge(l, r, _, _) => [Plain(l), Plain(r)]
    case PrimOp(_, _, _, args) => seq(|args|, i requires 0 <= i < |args| => Plain(args[i]))
    case Lit(_) => []
    case Error => []
    case RecordLit(fs) => seq(|fs|, i requires 0 <= i < |fs| => Plain(fs[i].value))
    case RecordProj(r, _) => [Plain(r)]
    case RecordUpdate(r, fs) => [Plain(r)] + seq(|fs|, i requires 0 <= i < |fs| => Plain(fs[i].value))
    case VariantLit(_, v) => [Plain(v)]
  }

  // ---- Free variables ----

  function LocalKeys(xs: set<Name>): set<VarKey> { set x | x in xs :: VarKey("", x) }

  /** Term-level free variables, keyed by module and name. */
  function FreeVars(e: Core): set<VarKey> {
    if e.Var? then {VarKey(e.mod, e.name)}
    else
      var ss := Scopes(e);
      set i, k | 0 <= i < |ss| && k in FreeVars(ss[i].body) - LocalKeys(ss[i].dropped) :: k
  }

  /** The bare names of the free variables; binders are compared by bare name. */
  function FreeNames(e: Core): set<Name> { set k | k in FreeVars(e) :: k.name }

  // ---- Node count ----

  function Size(e: Core): (n: nat)
    ensures 1 <= n
  {
    match e
    case Var(_, _) => 1
    case Lam(_, _, b) => 1 + Size(b)
    case App(f, a) => 1 + Size(f) + Size(a)
    case TyApp(x, _) => 1 + Size(x)
    case TyLam(_, _, b) => 1 + Size(b)
    case Con(_, _, args) => 1 + SizeArgs(args)
    case Case(s, alts) => 1 + Size(s) + SizeAlts(alts)
    case Fix(_, b) => 1 + Size(b)
    case Pure(x) => 1 + Size(x)
    case Bind(c, _, _, b) => 1 + Size(c) + Size(b)
    case Thunk(c) => 1 + Size(c)
    case Force(x) => 1 + Size(x)
    case Merge(l, r, _, _) => 1 + Size(l) + Size(r)
    case PrimOp(_, _, _, args) => 1 + SizeArgs(args)
    case Lit(_) => 1
    case Error => 1
    case RecordLit(fs) => 1 + SizeFields(fs)
    case RecordProj(r, _) => 1 + Size(r)
    case RecordUpdate(r, fs) => 1 + Size(r) + SizeFields(fs)
    case VariantLit(_, v) => 1 + Size(v)
  }

  function SizeArgs(es: seq<Core>): nat {
    if es == [] then 0 else Size(es[0]) + SizeArgs(es[1..])
  }

  function SizeAlts(alts: seq<Alt>): nat {
    if alts == [] then 0 else assert alts[0].body < alts[0]; Size(alts[0].body) + SizeAlts(alts[1..])
  }

  function SizeFields(fs: seq<Field>): nat {
    if fs == [] then 0 else Size(fs[0].value) + SizeFields(fs[1..])
  }
}
