/**
  Operator precedence resolution: a two-stack shunting yard over left-, right-
  and non-associative operators. A tree is precedence-correct when every
  operator on the right spine of a left child gives way to its parent and none
  on the left spine of a right child makes its parent give way.
 */
module Resolve {

  datatype Assoc = AssocLeft | AssocRight | AssocNone

  datatype Fixity = Fixity(assoc: Assoc, prec: int)

  type Table = map<string, Fixity>

  function LookupFixity(tbl: Table, op: string): Fixity {
    if op in tbl then tbl[op] else Fixity(AssocLeft, 9)
  }

  /** Equal precedence with a non-associative member. */
  predicate Clash(tbl: Table, top: string, op: string) {
    var t, f := LookupFixity(tbl, top), LookupFixity(tbl, op);
    t.prec == f.prec && (t.assoc == AssocNone || f.assoc == AssocNone)
  }

  /** `top` is completed before `op` is read. */
  predicate Pops(tbl: Table, top: string, op: string) {
    var t, f := LookupFixity(tbl, top), LookupFixity(tbl, op);
    t.prec > f.prec || Clash(tbl, top, op) || (t.prec == f.prec && f.assoc == AssocLeft)
  }

  // ---- Trees ----

  datatype Tree<E> = Leaf(e: E) | Infix(left: Tree<E>, op: string, right: Tree<E>)

  function Operands<E>(t: Tree<E>): (xs: seq<E>)
    ensures |xs| == |Operators(t)| + 1
  {
    match t
    case Leaf(e) => [e]
    case Infix(l, _, r) => Operands(l) + Operands(r)
  }

  function Operators<E>(t: Tree<E>): seq<string> {
    match t
    case Leaf(_) => []
    case Infix(l, op, r) => Operators(l) + [op] + Operators(r)
  }

  function RightOps<E>(t: Tree<E>): seq<string> {
    match t
    case Leaf(_) => []
    case Infix(_, op, r) => [op] + RightOps(r)
  }

  function LeftOps<E>(t: Tree<E>): seq<string> {
    match t
    case Leaf(_) => []
    case Infix(l, op, _) => [op] + LeftOps(l)
  }

  predicate AllPop(tbl: Table, tops: seq<string>, op: string) { forall q :: q in tops ==> Pops(tbl, q, op) }

  predicate NonePops(tbl: Table, top: string, ops: seq<string>) { forall q :: q in ops ==> !Pops(tbl, top, q) }

  predicate Correct<E>(tbl: Table, t: Tree<E>) {
    t.Infix? ==>
      && Correct(tbl, t.left) && Correct(tbl, t.right)
      && AllPop(tbl, RightOps(t.left), t.op) && NonePops(tbl, t.op, LeftOps(t.right))
  }

  /** How many operators on the right spine clash with `op`. */
  function ClashCount(tbl: Table, tops: seq<string>, op: string): nat {
    if tops == [] then 0 else (if Clash(tbl, tops[0], op) then 1 else 0) + ClashCount(tbl, tops[1..], op)
  }

  function Repeat(n: nat, i: nat): seq<nat> { if n == 0 then [] else [i] + Repeat(n - 1, i) }

  lemma {:induction false} RepeatMore(n: nat, i: nat)
    ensures Repeat(n, i) + [i] == Repeat(n + 1, i)
  {
    if n > 0 { RepeatMore(n - 1, i); }
  }

  /** Where a tree brings together clashing operators: for each operator, from
      position `k`, its position once for each clash with its left child. */
  function Clashes<E>(tbl: Table, t: Tree<E>, k: nat): seq<nat> {
    match t
    case Leaf(_) => []
    case Infix(l, op, r) =>
      var i := k + |Operators(l)|;
      Clashes(tbl, l, k) + Repeat(ClashCount(tbl, RightOps(l), op), i) + Clashes(tbl, r, i + 1)
  }

  // ---- Reading one more operator ----

  /** The tree after reading `op` and an operand: the part of the right spine
      that gives way becomes the left child of `op`. */
  function Append<E>(tbl: Table, t: Tree<E>, op: string, x: E): Tree<E> {
    if AllPop(tbl, RightOps(t), op) then Infix(t, op, Leaf(x))
    else Infix(t.left, t.op, Append(tbl, t.right, op, x))
  }

  function Taken<E>(tbl: Table, t: Tree<E>, op: string): Tree<E> {
    if AllPop(tbl, RightOps(t), op) then t else Taken(tbl, t.right, op)
  }

  function Fold<E>(tbl: Table, t: Tree<E>, ops: seq<string>, xs: seq<E>): Tree<E>
    requires |ops| == |xs|
    decreases |ops|
  {
    if ops == [] then t else Fold(tbl, Append(tbl, t, ops[0], xs[0]), ops[1..], xs[1..])
  }

  /** The tree for a whole spine. */
  function Build<E>(tbl: Table, xs: seq<E>, ops: seq<string>): Tree<E>
    requires |xs| == |ops| + 1
  {
    Fold(tbl, Leaf(xs[0]), ops, xs[1..])
  }

  lemma {:induction false} AppendFlat<E>(tbl: Table, t: Tree<E>, op: string, x: E)
    ensures Operands(Append(tbl, t, op, x)) == Operands(t) + [x]
    ensures Operators(Append(tbl, t, op, x)) == Operators(t) + [op]
  {
    if !AllPop(tbl, RightOps(t), op) { AppendFlat(tbl, t.right, op, x); }
  }

  lemma {:induction false} AppendLeft<E>(tbl: Table, t: Tree<E>, op: string, x: E)
    ensures LeftOps(Append(tbl, t, op, x)) == if AllPop(tbl, RightOps(t), op) then [op] + LeftOps(t) else LeftOps(t)
  {
  }

  lemma {:induction false} AppendCorrect<E>(tbl: Table, t: Tree<E>, op: string, x: E)
    requires Correct(tbl, t)
    ensures Correct(tbl, Append(tbl, t, op, x))
  {
    if !AllPop(tbl, RightOps(t), op) {
      AppendCorrect(tbl, t.right, op, x);
      AppendLeft(tbl, t.right, op, x);
    }
  }

  lemma {:induction false} FoldFlat<E>(tbl: Table, t: Tree<E>, ops: seq<string>, xs: seq<E>)
    requires |ops| == |xs|
    ensures Operands(Fold(tbl, t, ops, xs)) == Operands(t) + xs
    ensures Operators(Fold(tbl, t, ops, xs)) == Operators(t) + ops
    decreases |ops|
  {
    hide Append, Operands, Operators;
    if ops != [] {
      AppendFlat(tbl, t, ops[0], xs[0]);
      FoldFlat(tbl, Append(tbl, t, ops[0], xs[0]), ops[1..], xs[1..]);
      assert xs == [xs[0]] + xs[1..] && ops == [ops[0]] + ops[1..];
    }
  }

  lemma {:induction false} FoldCorrect<E>(tbl: Table, t: Tree<E>, ops: seq<string>, xs: seq<E>)
    requires |ops| == |xs| && Correct(tbl, t)
    ensures Correct(tbl, Fold(tbl, t, ops, xs))
    decreases |ops|
  {
    hide Append, Correct;
    if ops != [] {
      AppendCorrect(tbl, t, ops[0], xs[0]);
      FoldCorrect(tbl, Append(tbl, t, ops[0], xs[0]), ops[1..], xs[1..]);
    }
  }

  /** Every spine resolves to a precedence-correct tree with the same operands
      and operators in the same order. */
  lemma BuildCorrect<E>(tbl: Table, xs: seq<E>, ops: seq<string>)
    requires |xs| == |ops| + 1
    ensures var t := Build(tbl, xs, ops); Operands(t) == xs && Operators(t) == ops && Correct(tbl, t)
  {
    FoldFlat(tbl, Leaf(xs[0]), ops, xs[1..]);
    FoldCorrect(tbl, Leaf(xs[0]), ops, xs[1..]);
    assert [xs[0]] + xs[1..] == xs;
  }

  // ---- Uniqueness ----

  lemma {:induction false} FoldFold<E>(tbl: Table, t: Tree<E>, ops: seq<string>, xs: seq<E>, ops': seq<string>, xs': seq<E>)
    requires |ops| == |xs| && |ops'| == |xs'|
    ensures Fold(tbl, t, ops + ops', xs + xs') == Fold(tbl, Fold(tbl, t, ops, xs), ops', xs')
    decreases |ops|
  {
    if ops == [] {
      assert ops + ops' == ops' && xs + xs' == xs';
    } else {
      assert (ops + ops')[1..] == ops[1..] + ops' && (xs + xs')[1..] == xs[1..] + xs';
      FoldFold(tbl, Append(tbl, t, ops[0], xs[0]), ops[1..], xs[1..], ops', xs');
    }
  }

  lemma {:induction false} FoldLeftOps<E>(tbl: Table, t: Tree<E>, ops: seq<string>, xs: seq<E>)
    requires |ops| == |xs|
    ensures forall q :: q in LeftOps(t) ==> q in LeftOps(Fold(tbl, t, ops, xs))
    decreases |ops|
  {
    if ops != [] {
      AppendLeft(tbl, t, ops[0], xs[0]);
      FoldLeftOps(tbl, Append(tbl, t, ops[0], xs[0]), ops[1..], xs[1..]);
    }
  }

  /** A right child grows on its own as long as nothing on its left spine makes
      the parent give way. */
  lemma {:induction false} FoldUnder<E>(tbl: Table, l: Tree<E>, op: string, r: Tree<E>, ops: seq<string>, xs: seq<E>)
    requires |ops| == |xs| && NonePops(tbl, op, LeftOps(Fold(tbl, r, ops, xs)))
    ensures Fold(tbl, Infix(l, op, r), ops, xs) == Infix(l, op, Fold(tbl, r, ops, xs))
    decreases |ops|
  {
    if ops != [] {
      var q, x := ops[0], xs[0];
      var r1 := Append(tbl, r, q, x);
      AppendLeft(tbl, r, q, x);
      FoldLeftOps(tbl, r1, ops[1..], xs[1..]);
      if AllPop(tbl, RightOps(r), q) {
        assert q in LeftOps(r1);
        assert !Pops(tbl, op, q);
      }
      assert op in RightOps(Infix(l, op, r));
      assert forall o :: o in RightOps(r) ==> o in RightOps(Infix(l, op, r));
      assert Append(tbl, Infix(l, op, r), q, x) == Infix(l, op, r1);
      FoldUnder(tbl, l, op, r1, ops[1..], xs[1..]);
    }
  }

  lemma AppendTop<E>(tbl: Table, t: Tree<E>, op: string, x: E)
    requires AllPop(tbl, RightOps(t), op)
    ensures Append(tbl, t, op, x) == Infix(t, op, Leaf(x))
  {
  }

  lemma FoldNext<E>(tbl: Table, t: Tree<E>, op: string, x: E, ops: seq<string>, xs: seq<E>)
    requires |ops| == |xs|
    ensures Fold(tbl, t, [op] + ops, [x] + xs) == Fold(tbl, Append(tbl, t, op, x), ops, xs)
  {
    assert ([op] + ops)[1..] == ops && ([x] + xs)[1..] == xs;
  }

  /** Two rebuilt sides and the operator between them. */
  lemma BuildInfix<E>(tbl: Table, l: Tree<E>, op: string, r: Tree<E>)
    requires Build(tbl, Operands(l), Operators(l)) == l && Build(tbl, Operands(r), Operators(r)) == r
    requires AllPop(tbl, RightOps(l), op) && NonePops(tbl, op, LeftOps(r))
    ensures Build(tbl, Operands(l) + Operands(r), Operators(l) + [op] + Operators(r)) == Infix(l, op, r)
  {
    hide Append, Pops, Fold, Operands, Operators, RightOps, LeftOps;
    var xl, xr, ol, or := Operands(l), Operands(r), Operators(l), Operators(r);
    assert (xl + xr)[1..] == xl[1..] + ([xr[0]] + xr[1..]);
    assert ol + [op] + or == ol + ([op] + or);
    FoldFold(tbl, Leaf(xl[0]), ol, xl[1..], [op] + or, [xr[0]] + xr[1..]);
    FoldNext(tbl, l, op, xr[0], or, xr[1..]);
    AppendTop(tbl, l, op, xr[0]);
    FoldUnder(tbl, l, op, Leaf(xr[0]), or, xr[1..]);
  }

  /** Resolving the in-order reading of a precedence-correct tree gives the
      tree back. */
  lemma {:induction false} RoundTrip<E>(tbl: Table, t: Tree<E>)
    requires Correct(tbl, t)
    ensures Build(tbl, Operands(t), Operators(t)) == t
  {
    hide Append, Pops;
    if t.Infix? {
      RoundTrip(tbl, t.left);
      RoundTrip(tbl, t.right);
      BuildInfix(tbl, t.left, t.op, t.right);
    }
  }

  /** The precedence-correct tree of a spine is unique. */
  lemma CorrectUnique<E>(tbl: Table, t: Tree<E>, t': Tree<E>)
    requires Correct(tbl, t) && Correct(tbl, t') && Operands(t) == Operands(t') && Operators(t) == Operators(t')
    ensures t == t'
  {
    RoundTrip(tbl, t);
    RoundTrip(tbl, t');
  }

  // ---- Errors ----

  /** A clash somewhere in the tree, between a node and its left child's right spine. */
  predicate HasClash<E>(tbl: Table, t: Tree<E>) {
    t.Infix? &&
      ((exists q :: q in RightOps(t.left) && Clash(tbl, q, t.op)) || HasClash(tbl, t.left) || HasClash(tbl, t.right))
  }

  lemma {:induction false} ClashCountIff(tbl: Table, tops: seq<string>, op: string)
    ensures ClashCount(tbl, tops, op) > 0 <==> exists q :: q in tops && Clash(tbl, q, op)
  {
    if tops != [] {
      ClashCountIff(tbl, tops[1..], op);
      assert forall q :: q in tops <==> q == tops[0] || q in tops[1..];
    }
  }

  lemma {:induction false} ClashesIff<E>(tbl: Table, t: Tree<E>, k: nat)
    ensures Clashes(tbl, t, k) != [] <==> HasClash(tbl, t)
  {
    if t.Infix? {
      ClashesIff(tbl, t.left, k);
      ClashesIff(tbl, t.right, k + |Operators(t.left)| + 1);
      ClashCountIff(tbl, RightOps(t.left), t.op);
    }
  }

  lemma {:induction false} AppendClashes<E>(tbl: Table, t: Tree<E>, op: string, x: E, k: nat)
    ensures Clashes(tbl, Append(tbl, t, op, x), k)
         == Clashes(tbl, t, k) + Repeat(ClashCount(tbl, RightOps(Taken(tbl, t, op)), op), k + |Operators(t)|)
  {
    hide AllPop, ClashCount, RightOps, Clashes;
    var last := Repeat(ClashCount(tbl, RightOps(Taken(tbl, t, op)), op), k + |Operators(t)|);
    if AllPop(tbl, RightOps(t), op) {
      ClashesNode(tbl, t, op, Leaf(x), k);
      LeafClashes(tbl, x, k + |Operators(t)| + 1);
    } else {
      LeafPops(tbl, t, op);
      var i := k + |Operators(t.left)|;
      AppendClashes(tbl, t.right, op, x, i + 1);
      ClashesNode(tbl, t.left, t.op, t.right, k);
      ClashesNode(tbl, t.left, t.op, Append(tbl, t.right, op, x), k);
      assert i + 1 + |Operators(t.right)| == k + |Operators(t)|;
      var here := Repeat(ClashCount(tbl, RightOps(t.left), t.op), i);
      Regroup(Clashes(tbl, t.left, k), here, Clashes(tbl, t.right, i + 1), last);
    }
  }

  lemma ClashesNode<E>(tbl: Table, l: Tree<E>, op: string, r: Tree<E>, k: nat)
    ensures var i := k + |Operators(l)|;
      Clashes(tbl, Infix(l, op, r), k)
        == Clashes(tbl, l, k) + Repeat(ClashCount(tbl, RightOps(l), op), i) + Clashes(tbl, r, i + 1)
  {
  }

  lemma LeafClashes<E>(tbl: Table, x: E, k: nat)
    ensures Clashes(tbl, Leaf(x), k) == []
  {
  }

  lemma LeafPops<E>(tbl: Table, t: Tree<E>, op: string)
    requires !AllPop(tbl, RightOps(t), op)
    ensures t.Infix?
  {
  }

  lemma Regroup(a: seq<nat>, b: seq<nat>, c: seq<nat>, d: seq<nat>)
    ensures a + b + (c + d) == a + b + c + d
  {
  }

  // ---- Operators without a declaration ----

  /** The table with every undeclared operator of `ops` declared infixl 9. */
  function Full(tbl: Table, ops: seq<string>): Table {
    tbl + map op | op in ops && op !in tbl :: Fixity(AssocLeft, 9)
  }

  predicate Declares(tbl: Table, ops: seq<string>) { forall op :: op in ops ==> op in tbl }

  /** An operator with fixity `t` is completed before one with fixity `f`. */
  predicate GivesWay(t: Fixity, f: Fixity) {
    t.prec > f.prec || (t.prec == f.prec && (t.assoc == AssocNone || f.assoc == AssocNone || f.assoc == AssocLeft))
  }

  /** Precedence-correct for declared operators: every operator on the right
      spine of a left child gives way to its parent, and the parent gives way to
      none on the left spine of its right child. */
  predicate Fits<E>(tbl: Table, t: Tree<E>)
    requires Declares(tbl, Operators(t))
  {
    t.Infix? ==>
      (SpineOps(t); SpineOps(t.left); SpineOps(t.right);
       && Fits(tbl, t.left) && Fits(tbl, t.right)
       && (forall q :: q in RightOps(t.left) ==> GivesWay(tbl[q], tbl[t.op]))
       && (forall q :: q in LeftOps(t.right) ==> !GivesWay(tbl[t.op], tbl[q])))
  }

  lemma {:induction false} SpineOps<E>(t: Tree<E>)
    ensures forall q :: q in RightOps(t) || q in LeftOps(t) ==> q in Operators(t)
    ensures t.Infix? ==> t.op in Operators(t)
    ensures t.Infix? ==> forall q :: q in Operators(t.left) || q in Operators(t.right) ==> q in Operators(t)
  {
    if t.Infix? {
      SpineOps(t.left);
      SpineOps(t.right);
    }
  }

  /** How many of `tops` are in a clash of equal precedence with `op`, one of the
      two being non-associative. */
  function EqualNone(tbl: Table, tops: seq<string>, op: string): nat
    requires Declares(tbl, tops) && op in tbl
  {
    if tops == [] then 0
    else
      var t, f := tbl[tops[0]], tbl[op];
      (if t.prec == f.prec && (t.assoc == AssocNone || f.assoc == AssocNone) then 1 else 0) + EqualNone(tbl, tops[1..], op)
  }

  /** The position of each operator, once for each such clash with the right
      spine of its left child. */
  function Mixed<E>(tbl: Table, t: Tree<E>, k: nat): seq<nat>
    requires Declares(tbl, Operators(t))
  {
    match t
    case Leaf(_) => []
    case Infix(l, op, r) =>
      SpineOps(t); SpineOps(l);
      var i := k + |Operators(l)|;
      Mixed(tbl, l, k) + seq(EqualNone(tbl, RightOps(l), op), _ => i) + Mixed(tbl, r, i + 1)
  }

  /** Two tables say the same about these operators. */
  predicate SameLookup(tbl: Table, tbl': Table, ops: seq<string>) {
    forall op :: op in ops ==> LookupFixity(tbl, op) == LookupFixity(tbl', op)
  }

  lemma FullSame(tbl: Table, ops: seq<string>)
    ensures Declares(Full(tbl, ops), ops) && SameLookup(tbl, Full(tbl, ops), ops)
    ensures forall op :: op in ops ==> Full(tbl, ops)[op] == if op in tbl then tbl[op] else Fixity(AssocLeft, 9)
  {
  }

  lemma {:induction false} CorrectSame<E>(tbl: Table, tbl': Table, t: Tree<E>)
    requires SameLookup(tbl, tbl', Operators(t))
    ensures Correct(tbl, t) <==> Correct(tbl', t)
  {
    if t.Infix? {
      SpineOps(t);
      SpineOps(t.left);
      SpineOps(t.right);
      CorrectSame(tbl, tbl', t.left);
      CorrectSame(tbl, tbl', t.right);
    }
  }

  lemma {:induction false} CorrectFits<E>(tbl: Table, t: Tree<E>)
    requires Declares(tbl, Operators(t))
    ensures Correct(tbl, t) <==> Fits(tbl, t)
  {
    if t.Infix? {
      SpineOps(t);
      SpineOps(t.left);
      SpineOps(t.right);
      CorrectFits(tbl, t.left);
      CorrectFits(tbl, t.right);
    }
  }

  lemma {:induction false} CountSame(tbl: Table, tbl': Table, tops: seq<string>, op: string)
    requires SameLookup(tbl, tbl', tops) && SameLookup(tbl, tbl', [op]) && Declares(tbl', tops) && op in tbl'
    ensures ClashCount(tbl, tops, op) == EqualNone(tbl', tops, op)
  {
    if tops != [] {
      assert tops[0] in tops && op in [op];
      CountSame(tbl, tbl', tops[1..], op);
    }
  }

  lemma {:induction false} RepeatIs(n: nat, i: nat)
    ensures Repeat(n, i) == seq(n, _ => i)
  {
    if n > 0 { RepeatIs(n - 1, i); }
  }

  lemma {:induction false} ClashesMixed<E>(tbl: Table, tbl': Table, t: Tree<E>, k: nat)
    requires SameLookup(tbl, tbl', Operators(t)) && Declares(tbl', Operators(t))
    ensures Clashes(tbl, t, k) == Mixed(tbl', t, k)
  {
    hide ClashCount, EqualNone, Repeat, LookupFixity;
    if t.Infix? {
      SpineOps(t);
      SpineOps(t.left);
      var i := k + |Operators(t.left)|;
      ClashesMixed(tbl, tbl', t.left, k);
      ClashesMixed(tbl, tbl', t.right, i + 1);
      CountSame(tbl, tbl', RightOps(t.left), t.op);
      RepeatIs(ClashCount(tbl, RightOps(t.left), t.op), i);
    }
  }

  /** An undeclared operator binds as infixl 9: with any table the tree of a
      spine is the one that fits the table in which the undeclared ones are
      declared so, and the clashes are those of that table. */
  lemma UndeclaredLeft9<E>(tbl: Table, xs: seq<E>, ops: seq<string>)
    requires |xs| == |ops| + 1
    ensures var t, full := Build(tbl, xs, ops), Full(tbl, ops);
      && Operators(t) == ops && Declares(full, ops) && Fits(full, t) && t == Build(full, xs, ops)
      && Clashes(tbl, t, 0) == Mixed(full, t, 0) && Clashes(full, t, 0) == Mixed(full, t, 0)
  {
    hide Correct, Fits, Clashes, Mixed, Full, LookupFixity;
    var t, full := Build(tbl, xs, ops), Full(tbl, ops);
    BuildCorrect(tbl, xs, ops);
    FullSame(tbl, ops);
    CorrectSame(tbl, full, t);
    CorrectFits(full, t);
    RoundTrip(full, t);
    ClashesMixed(tbl, full, t, 0);
    ClashesMixed(full, full, t, 0);
  }

  /** Every tree that fits that table is the tree of its own spine. */
  lemma FitsRoundTrip<E>(tbl: Table, t: Tree<E>)
    requires Declares(Full(tbl, Operators(t)), Operators(t)) && Fits(Full(tbl, Operators(t)), t)
    ensures Build(tbl, Operands(t), Operators(t)) == t
  {
    hide Correct, Fits, Full, LookupFixity;
    FullSame(tbl, Operators(t));
    CorrectSame(tbl, Full(tbl, Operators(t)), t);
    CorrectFits(Full(tbl, Operators(t)), t);
    RoundTrip(tbl, t);
  }

  // ---- The two stacks ----

  /** The tree that draining the stacks would give. */
  function Joined<E>(output: seq<Tree<E>>, opStack: seq<string>): Tree<E>
    requires |output| == |opStack| + 1
  {
    if opStack == [] then output[0] else Infix(output[0], opStack[0], Joined(output[1..], opStack[1..]))
  }

  /** Completing the top operator does not change that tree. */
  lemma {:induction false} JoinedPop<E>(output: seq<Tree<E>>, opStack: seq<string>)
    requires |output| == |opStack| + 1 && opStack != []
    ensures var n := |opStack|;
      Joined(output[..n - 1] + [Infix(output[n - 1], opStack[n - 1], output[n])], opStack[..n - 1]) == Joined(output, opStack)
    decreases |opStack|
  {
    var n := |opStack|;
    var merged := output[..n - 1] + [Infix(output[n - 1], opStack[n - 1], output[n])];
    if n > 1 {
      JoinedPop(output[1..], opStack[1..]);
      assert merged[1..] == output[1..][..n - 2] + [Infix(output[1..][n - 2], opStack[1..][n - 2], output[1..][n - 1])];
      assert opStack[..n - 1][1..] == opStack[1..][..n - 2];
    } else {
      assert output[1..][0] == output[1];
    }
  }

  lemma {:induction false} JoinedRight<E>(output: seq<Tree<E>>, opStack: seq<string>)
    requires |output| == |opStack| + 1
    ensures RightOps(Joined(output, opStack)) == opStack + RightOps(output[|opStack|])
    decreases |opStack|
  {
    if opStack != [] { JoinedRight(output[1..], opStack[1..]); }
  }

  /** Pushing an operator that the top does not give way to is appending it. */
  lemma {:induction false} JoinedPush<E>(tbl: Table, output: seq<Tree<E>>, opStack: seq<string>, op: string, x: E)
    requires |output| == |opStack| + 1 && AllPop(tbl, RightOps(output[|opStack|]), op)
    requires opStack != [] ==> !Pops(tbl, opStack[|opStack| - 1], op)
    ensures Joined(output + [Leaf(x)], opStack + [op]) == Append(tbl, Joined(output, opStack), op, x)
    ensures Taken(tbl, Joined(output, opStack), op) == output[|opStack|]
    decreases |opStack|
  {
    JoinedRight(output, opStack);
    if opStack == [] {
      assert (output + [Leaf(x)])[1..] == [Leaf(x)] && (opStack + [op])[1..] == [];
      assert RightOps(output[0]) == RightOps(Joined(output, opStack));
    } else {
      JoinedPush(tbl, output[1..], opStack[1..], op, x);
      assert (output + [Leaf(x)])[1..] == output[1..] + [Leaf(x)] && (opStack + [op])[1..] == opStack[1..] + [op];
      assert opStack[|opStack| - 1] in RightOps(Joined(output, opStack));
    }
  }

  /** Complete the top operator: its two operands become one. */
  method Complete<E>(output: seq<Tree<E>>, opStack: seq<string>) returns (output': seq<Tree<E>>, opStack': seq<string>)
    requires |output| == |opStack| + 1 && opStack != []
    ensures var n := |opStack|;
      && opStack' == opStack[..n - 1]
      && output' == output[..n - 1] + [Infix(output[n - 1], opStack[n - 1], output[n])]
    ensures Joined(output', opStack') == Joined(output, opStack)
  {
    JoinedPop(output, opStack);
    var top := opStack[|opStack| - 1];
    var right, left := output[|output| - 1], output[|output| - 2];
    opStack' := opStack[..|opStack| - 1];
    output' := output[..|output| - 2] + [Infix(left, top, right)];
  }

  /** Complete every operator on the stack that gives way to `op`, noting each
      clash at position `i`. */
  method PopFor<E>(tbl: Table, output: seq<Tree<E>>, opStack: seq<string>, op: string, i: nat)
    returns (output': seq<Tree<E>>, opStack': seq<string>, errors: seq<nat>)
    requires |output| == |opStack| + 1 && output[|opStack|].Leaf?
    ensures |output'| == |opStack'| + 1 && Joined(output', opStack') == Joined(output, opStack)
    ensures AllPop(tbl, RightOps(output'[|opStack'|]), op)
    ensures opStack' != [] ==> !Pops(tbl, opStack'[|opStack'| - 1], op)
    ensures errors == Repeat(ClashCount(tbl, RightOps(output'[|opStack'|]), op), i)
  {
    output', opStack', errors := output, opStack, [];
    while |opStack'| > 0
      invariant |output'| == |opStack'| + 1 && Joined(output', opStack') == Joined(output, opStack)
      invariant AllPop(tbl, RightOps(output'[|opStack'|]), op)
      invariant errors == Repeat(ClashCount(tbl, RightOps(output'[|opStack'|]), op), i)
      decreases |opStack'|
    {
      var top := opStack'[|opStack'| - 1];
      var t, f := LookupFixity(tbl, top), LookupFixity(tbl, op);
      var pop := false;
      ghost var right := output'[|opStack'|];
      if t.prec > f.prec {
        pop := true;
      } else if t.prec == f.prec {
        if t.assoc == AssocNone || f.assoc == AssocNone {
          RepeatMore(ClashCount(tbl, RightOps(right), op), i);
          errors := errors + [i];
          pop := true;
        } else if f.assoc == AssocLeft {
          pop := true;
        }
      }
      if !pop {
        break;
      }
      output', opStack' := Complete(output', opStack');
      assert RightOps(output'[|opStack'|]) == [top] + RightOps(right);
      assert ([top] + RightOps(right))[1..] == RightOps(right);
    }
  }

  /** The shunting yard builds the precedence-correct tree and reports exactly
      its clashes. */
  method ResolveSpine<E>(tbl: Table, operands: seq<E>, ops: seq<string>) returns (tree: Tree<E>, errors: seq<nat>)
    requires |operands| == |ops| + 1
    ensures tree == Build(tbl, operands, ops)
    ensures Operands(tree) == operands && Operators(tree) == ops
    ensures Declares(Full(tbl, ops), ops) && Fits(Full(tbl, ops), tree) && errors == Mixed(Full(tbl, ops), tree, 0)
  {
    hide Append, Clashes, Pops, Operators, Operands, Joined, Taken, Fits, Mixed, Declares, Full;
    var output, opStack := [Leaf(operands[0])], [];
    errors := [];
    Start(tbl, operands[0]);
    for i := 0 to |ops|
      invariant |output| == |opStack| + 1 && output[|opStack|].Leaf?
      invariant Fold(tbl, Joined(output, opStack), ops[i..], operands[i + 1..]) == Build(tbl, operands, ops)
      invariant |Operators(Joined(output, opStack))| == i
      invariant errors == Clashes(tbl, Joined(output, opStack), 0)
    {
      var op, rhs := ops[i], operands[i + 1];
      assert ops[i..][0] == op && ops[i..][1..] == ops[i + 1..];
      assert operands[i + 1..][0] == rhs && operands[i + 1..][1..] == operands[i + 2..];
      ghost var t := Joined(output, opStack);
      var clashes;
      output, opStack, clashes := PopFor(tbl, output, opStack, op, i);
      JoinedPush(tbl, output, opStack, op, rhs);
      AppendClashes(tbl, t, op, rhs, 0);
      AppendFlat(tbl, t, op, rhs);
      errors := errors + clashes;
      opStack := opStack + [op];
      output := output + [Leaf(rhs)];
    }
    while |opStack| > 0
      invariant |output| == |opStack| + 1
      invariant Joined(output, opStack) == Build(tbl, operands, ops)
      decreases |opStack|
    {
      output, opStack := Complete(output, opStack);
    }
    tree := output[0];
    Drained(output, opStack);
    UndeclaredLeft9(tbl, operands, ops);
    BuildCorrect(tbl, operands, ops);
  }

  lemma Start<E>(tbl: Table, x: E)
    ensures Joined([Leaf(x)], []) == Leaf(x) && Operators(Leaf(x)) == [] && Clashes(tbl, Leaf(x), 0) == []
  {
  }

  lemma Drained<E>(output: seq<Tree<E>>, opStack: seq<string>)
    requires |output| == 1 && opStack == []
    ensures Joined(output, opStack) == output[0]
  {
  }
}
