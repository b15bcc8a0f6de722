/**
  The typing context: a stack of entries with three indexes from keys to
  positions. Lookups through an index equal a linear scan, newest first.
 */
module TypingContext {
  import opened Records

  datatype Entry =
    | CtxVar(name: string, ty: string, mod: string, dictClass: string, isSolverInvisible: bool)
    | CtxTyVar(name: string, kind: string)
    | CtxEvidence(className: string, dictName: string)

  /** The three ways of finding an entry. */
  datatype By = ByVar | ByEvidence | ByDict

  function KeyOf(how: By, e: Entry): Maybe<string> {
    match how
    case ByVar => if e.CtxVar? then Just(e.name) else Nothing
    case ByEvidence => if e.CtxEvidence? && e.className != "" then Just(e.className) else Nothing
    case ByDict => if e.CtxVar? && e.dictClass != "" then Just(e.dictClass) else Nothing
  }

  // ---- Linear scans ----

  /** The entries with that key, newest first. */
  function Scan(es: seq<Entry>, how: By, key: string): seq<Entry> {
    if es == [] then []
    else
      var last := es[|es| - 1];
      (if KeyOf(how, last) == Just(key) then [last] else []) + Scan(es[..|es| - 1], how, key)
  }

  /** The positions of the entries with that key, ascending. */
  function Positions(es: seq<Entry>, how: By, key: string): seq<nat> {
    if es == [] then []
    else
      var n := |es| - 1;
      Positions(es[..n], how, key) + (if KeyOf(how, es[n]) == Just(key) then [n] else [])
  }

  predicate Holds(es: seq<Entry>, how: By, key: string, p: nat) { p < |es| && KeyOf(how, es[p]) == Just(key) }

  predicate Increasing(ps: seq<nat>) { forall i, j :: 0 <= i < j < |ps| ==> ps[i] < ps[j] }

  lemma {:induction false} PositionsAre(es: seq<Entry>, how: By, key: string)
    ensures forall p :: p in Positions(es, how, key) <==> Holds(es, how, key, p)
    ensures Increasing(Positions(es, how, key))
  {
    hide KeyOf;
    if es != [] {
      var n := |es| - 1;
      PositionsAre(es[..n], how, key);
      var ps, qs := Positions(es, how, key), Positions(es[..n], how, key);
      forall p: nat ensures p in ps <==> Holds(es, how, key, p) {
        assert p in ps <==> p in qs || (p == n && KeyOf(how, es[n]) == Just(key));
        assert p in qs <==> Holds(es[..n], how, key, p);
      }
      forall i, j | 0 <= i < j < |ps| ensures ps[i] < ps[j] {
        assert ps[i] == qs[i];
        if j < |qs| {
          assert ps[j] == qs[j];
        } else {
          assert qs[i] in qs && Holds(es[..n], how, key, qs[i]);
          assert ps[j] == n;
        }
      }
    }
  }

  /** Reading the positions backwards is scanning. */
  lemma {:induction false} ScanIs(es: seq<Entry>, how: By, key: string)
    ensures var ps, r := Positions(es, how, key), Scan(es, how, key);
      |r| == |ps| && forall i :: 0 <= i < |ps| ==> ps[i] < |es| && r[|ps| - 1 - i] == es[ps[i]]
  {
    if es != [] { ScanIs(es[..|es| - 1], how, key); }
  }

  function Shown(e: Entry): seq<Entry> { if e.CtxVar? && e.isSolverInvisible then [] else [e] }

  function Visible(es: seq<Entry>): seq<Entry> {
    if es == [] then [] else Shown(es[0]) + Visible(es[1..])
  }

  lemma {:induction false} VisibleMore(es: seq<Entry>, e: Entry)
    ensures Visible(es + [e]) == Visible(es) + Shown(e)
  {
    hide Shown;
    if es == [] {
      assert [e][1..] == [] && es + [e] == [e];
      assert Visible([e]) == Shown(e) + Visible([]);
    } else {
      assert (es + [e])[1..] == es[1..] + [e];
      VisibleMore(es[1..], e);
      assert Visible(es + [e]) == Shown(es[0]) + Visible(es[1..] + [e]);
    }
  }

  // ---- Indexes ----

  type Index = map<string, seq<nat>>

  function At(idx: Index, key: string): seq<nat> { if key in idx then idx[key] else [] }

  /** Every key lists exactly the ascending positions of its entries. */
  ghost predicate IndexOk(es: seq<Entry>, how: By, idx: Index) { forall k :: At(idx, k) == Positions(es, how, k) }

  function Added(idx: Index, key: Maybe<string>, pos: nat): Index {
    if key.Just? then idx[key.value := At(idx, key.value) + [pos]] else idx
  }

  lemma AddedOk(es: seq<Entry>, how: By, idx: Index, e: Entry)
    requires IndexOk(es, how, idx)
    ensures IndexOk(es + [e], how, Added(idx, KeyOf(how, e), |es|))
  {
    assert (es + [e])[..|es|] == es;
  }

  function Dropped(idx: Index, key: string): Index
    requires At(idx, key) != []
  {
    idx[key := At(idx, key)[..|At(idx, key)| - 1]]
  }

  /** The key of the last entry lists its position last, and dropping it gives
      the index of what remains. */
  lemma DroppedOk(es: seq<Entry>, how: By, idx: Index)
    requires IndexOk(es, how, idx) && es != []
    ensures var key := KeyOf(how, es[|es| - 1]);
      if key.Just? then
        && At(idx, key.value) != [] && At(idx, key.value)[|At(idx, key.value)| - 1] == |es| - 1
        && IndexOk(es[..|es| - 1], how, Dropped(idx, key.value))
      else IndexOk(es[..|es| - 1], how, idx)
  {
    var key := KeyOf(how, es[|es| - 1]);
    if key.Just? {
      var ps := At(idx, key.value);
      assert ps == Positions(es[..|es| - 1], how, key.value) + [|es| - 1];
      forall k ensures At(Dropped(idx, key.value), k) == Positions(es[..|es| - 1], how, k) {
        assert At(idx, k) == Positions(es, how, k);
      }
    } else {
      forall k ensures At(idx, k) == Positions(es[..|es| - 1], how, k) { assert At(idx, k) == Positions(es, how, k); }
    }
  }

  // ---- The context ----

  class Context {
    var entries: seq<Entry>
    var evidenceIndex: Index
    var dictVarIndex: Index
    var varIndex: Index

    ghost predicate Valid()
      reads this
    {
      IndexOk(entries, ByEvidence, evidenceIndex) && IndexOk(entries, ByDict, dictVarIndex) && IndexOk(entries, ByVar, varIndex)
    }

    constructor ()
      ensures Valid() && entries == []
    {
      entries, evidenceIndex, dictVarIndex, varIndex := [], map[], map[], map[];
    }

    method Push(e: Entry)
      requires Valid()
      modifies this
      ensures Valid() && entries == old(entries) + [e]
    {
      hide IndexOk;
      AddedOk(entries, ByEvidence, evidenceIndex, e);
      AddedOk(entries, ByDict, dictVarIndex, e);
      AddedOk(entries, ByVar, varIndex, e);
      var pos := |entries|;
      entries := entries + [e];
      if e.CtxEvidence? && e.className != "" {
        evidenceIndex := evidenceIndex[e.className := At(evidenceIndex, e.className) + [pos]];
      }
      if e.CtxVar? {
        varIndex := varIndex[e.name := At(varIndex, e.name) + [pos]];
        if e.dictClass != "" {
          dictVarIndex := dictVarIndex[e.dictClass := At(dictVarIndex, e.dictClass) + [pos]];
        }
      }
    }

    /** Take the newest entry off. None of the three panics can happen. */
    method Pop() returns (e: Maybe<Entry>)
      requires Valid()
      modifies this
      ensures Valid()
      ensures old(entries) == [] ==> e == Nothing && entries == []
      ensures old(entries) != [] ==> e.Just? && old(entries) == entries + [e.value]
    {
      hide IndexOk;
      if |entries| == 0 {
        return Nothing;
      }
      DroppedOk(entries, ByEvidence, evidenceIndex);
      DroppedOk(entries, ByDict, dictVarIndex);
      DroppedOk(entries, ByVar, varIndex);
      var pos := |entries| - 1;
      var last := entries[pos];
      entries := entries[..pos];
      if last.CtxEvidence? && last.className != "" {
        var idxs := At(evidenceIndex, last.className);
        if |idxs| == 0 || idxs[|idxs| - 1] != pos { assert false; }
        evidenceIndex := evidenceIndex[last.className := idxs[..|idxs| - 1]];
      }
      if last.CtxVar? {
        var idxs := At(varIndex, last.name);
        if |idxs| == 0 || idxs[|idxs| - 1] != pos { assert false; }
        varIndex := varIndex[last.name := idxs[..|idxs| - 1]];
        if last.dictClass != "" {
          var dictIdxs := At(dictVarIndex, last.dictClass);
          if |dictIdxs| == 0 || dictIdxs[|dictIdxs| - 1] != pos { assert false; }
          dictVarIndex := dictVarIndex[last.dictClass := dictIdxs[..|dictIdxs| - 1]];
        }
      }
      return Just(last);
    }

    /** Type and module of the newest variable of that name. */
    method LookupVarFull(name: string) returns (r: Maybe<Entry>)
      requires Valid()
      ensures var found := Scan(entries, ByVar, name); r == if found == [] then Nothing else Just(found[0])
      ensures r.Just? ==> r.value.CtxVar? && r.value.name == name
    {
      ScanIs(entries, ByVar, name);
      PositionsAre(entries, ByVar, name);
      var idxs := At(varIndex, name);
      assert |idxs| > 0 ==> Holds(entries, ByVar, name, idxs[|idxs| - 1]);
      if |idxs| > 0 {
        return Just(entries[idxs[|idxs| - 1]]);
      }
      return Nothing;
    }

    /** The newest type variable of that name, by scanning. */
    method LookupTyVar(name: string) returns (kind: Maybe<string>)
      ensures kind.Nothing? ==> CtxTyVarFree(name)
      ensures kind.Just? ==> exists i :: NewestTyVar(name, i) && entries[i].kind == kind.value
    {
      var i := |entries|;
      while i > 0
        invariant 0 <= i <= |entries|
        invariant forall j :: i <= j < |entries| ==> !(entries[j].CtxTyVar? && entries[j].name == name)
      {
        i := i - 1;
        if entries[i].CtxTyVar? && entries[i].name == name {
          assert NewestTyVar(name, i);
          return Just(entries[i].kind);
        }
      }
      return Nothing;
    }

    predicate CtxTyVarFree(name: string)
      reads this
    {
      forall j :: 0 <= j < |entries| ==> !(entries[j].CtxTyVar? && entries[j].name == name)
    }

    predicate NewestTyVar(name: string, i: int)
      reads this
    {
      0 <= i < |entries| && entries[i].CtxTyVar? && entries[i].name == name
      && forall j :: i < j < |entries| ==> !(entries[j].CtxTyVar? && entries[j].name == name)
    }

    /** All evidence for a class, newest first. */
    method LookupEvidence(className: string) returns (r: seq<Entry>)
      requires Valid()
      ensures r == Scan(entries, ByEvidence, className)
    {
      ScanIs(entries, ByEvidence, className);
      var idxs := At(evidenceIndex, className);
      r := [];
      for i := 0 to |idxs|
        invariant |r| == i && forall j :: 0 <= j < i ==> r[i - 1 - j] == entries[idxs[j]]
      {
        r := [entries[idxs[i]]] + r;
      }
      ghost var all := Scan(entries, ByEvidence, className);
      forall k | 0 <= k < |r| ensures r[k] == all[k] {
        var j := |r| - 1 - k;
        assert r[|r| - 1 - j] == entries[idxs[j]] && all[|r| - 1 - j] == entries[idxs[j]];
      }
    }

    /** The dictionary variables of a class that the solver may see, newest first. */
    method LookupDictVar(className: string) returns (r: seq<Entry>)
      requires Valid()
      ensures r == Visible(Scan(entries, ByDict, className))
    {
      hide Scan, Positions, KeyOf;
      ScanIs(entries, ByDict, className);
      ghost var all := Scan(entries, ByDict, className);
      var idxs := At(dictVarIndex, className);
      r := [];
      var i := |idxs|;
      while i > 0
        invariant 0 <= i <= |idxs| == |all|
        invariant r == Visible(all[..|idxs| - i])
      {
        i := i - 1;
        var k := |idxs| - 1 - i;
        assert all[..k + 1] == all[..k] + [all[k]];
        assert all[|idxs| - 1 - i] == entries[idxs[i]];
        VisibleMore(all[..k], all[k]);
        var v := entries[idxs[i]];
        if !(v.CtxVar? && v.isSolverInvisible) {
          r := r + [v];
        }
      }
      assert all[..|idxs|] == all;
    }

    /** The classes that have a dictionary variable. */
    method DictVarClasses() returns (names: set<string>)
      requires Valid()
      ensures forall k :: k in names <==> exists i :: Holds(entries, ByDict, k, i)
    {
      names := set k | k in dictVarIndex && |dictVarIndex[k]| > 0;
      forall k ensures k in names <==> exists i :: Holds(entries, ByDict, k, i) {
        assert k in names <==> At(dictVarIndex, k) != [];
        assert At(dictVarIndex, k) == Positions(entries, ByDict, k);
        SomePosition(entries, ByDict, k);
      }
    }
  }

  lemma SomePosition(es: seq<Entry>, how: By, key: string)
    ensures Positions(es, how, key) != [] <==> exists i :: Holds(es, how, key, i)
  {
    hide Positions, Holds;
    PositionsAre(es, how, key);
    var ps := Positions(es, how, key);
    if ps != [] { assert ps[0] in ps; }
  }
}
