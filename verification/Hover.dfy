/**
  The hover index: recorded spans, sorted once, and the search for the
  innermost one that contains an offset, which stops early.
 */
module Hover {
  import opened Records

  datatype Entry = Entry(start: int, end: int, isExpr: bool, ty: string, name: string, doc: string, mod: string)

  function Length(e: Entry): int { e.end - e.start }

  /** `a` is sorted before `b`: earlier start, or same start and shorter. */
  predicate Before(a: Entry, b: Entry) { a.start < b.start || (a.start == b.start && Length(a) < Length(b)) }

  // ---- Stable sorting ----

  /** Smaller start, else smaller end, else recorded earlier. */
  predicate Ahead(a: Entry, p: nat, b: Entry, q: nat) {
    a.start < b.start || (a.start == b.start && (a.end < b.end || (a.end == b.end && p < q)))
  }

  /** `r` is `es` rearranged by `perm`, in order, equal entries staying in the
      order they came in. */
  ghost predicate StableSorted(es: seq<Entry>, r: seq<Entry>, perm: seq<nat>) {
    && |perm| == |r| == |es|
    && (forall i :: 0 <= i < |r| ==> perm[i] < |es| && r[i] == es[perm[i]])
    && (forall i, j :: 0 <= i < j < |r| ==> Ahead(r[i], perm[i], r[j], perm[j]))
  }

  method SortStable(es: seq<Entry>) returns (r: seq<Entry>, ghost perm: seq<nat>)
    ensures StableSorted(es, r, perm) && multiset(r) == multiset(es)
  {
    hide StableSorted, Before, Ahead;
    r, perm := [], [];
    EmptySorted();
    for k := 0 to |es|
      invariant StableSorted(es[..k], r, perm) && multiset(r) == multiset(es[..k])
    {
      SortedSizes(es[..k], r, perm);
      var i := 0;
      while i < |r| && !Before(es[k], r[i])
        invariant 0 <= i <= |r| && forall j :: 0 <= j < i ==> !Before(es[k], r[j])
      {
        i := i + 1;
      }
      InsertStable(es, k, r, perm, i);
      SortedSizes(es[..k], r, perm);
      assert r == r[..i] + r[i..] && es[..k + 1] == es[..k] + [es[k]];
      r := PutIn(r, i, es[k]);
      perm := PutIn(perm, i, k);
    }
    assert es[..|es|] == es;
  }

  lemma EmptySorted()
    ensures StableSorted([], [], [])
  {
  }

  lemma SortedSizes(es: seq<Entry>, r: seq<Entry>, perm: seq<nat>)
    requires StableSorted(es, r, perm)
    ensures |perm| == |r| == |es|
  {
  }

  /** The new entry goes after everything it is not before. */
  lemma InsertPlace(es: seq<Entry>, k: nat, r: seq<Entry>, perm: seq<nat>, i: nat)
    requires k < |es| && StableSorted(es[..k], r, perm) && i <= |r|
    requires forall j :: 0 <= j < i ==> !Before(es[k], r[j])
    requires i < |r| ==> Before(es[k], r[i])
    ensures forall j :: 0 <= j < i ==> Ahead(r[j], perm[j], es[k], k)
    ensures forall j :: i <= j < |r| ==> Ahead(es[k], k, r[j], perm[j])
  {
    forall j | i <= j < |r| ensures Ahead(es[k], k, r[j], perm[j]) {
      if j > i { assert Ahead(r[i], perm[i], r[j], perm[j]); }
    }
  }

  /** The new entry put in at `i`. */
  function PutIn<T>(s: seq<T>, i: nat, x: T): (r: seq<T>)
    requires i <= |s|
    ensures |r| == |s| + 1 && r[i] == x
    ensures (forall a :: 0 <= a < i ==> r[a] == s[a]) && forall a :: i < a < |r| ==> r[a] == s[a - 1]
  {
    s[..i] + [x] + s[i..]
  }

  lemma InsertStable(es: seq<Entry>, k: nat, r: seq<Entry>, perm: seq<nat>, i: nat)
    requires k < |es| && StableSorted(es[..k], r, perm) && i <= |r|
    requires forall j :: 0 <= j < i ==> !Before(es[k], r[j])
    requires i < |r| ==> Before(es[k], r[i])
    ensures StableSorted(es[..k + 1], PutIn(r, i, es[k]), PutIn(perm, i, k))
  {
    InsertPlace(es, k, r, perm, i);
    hide Before, Ahead, PutIn;
    var r', perm' := PutIn(r, i, es[k]), PutIn(perm, i, k);
    forall a, b | 0 <= a < b < |r'| ensures Ahead(r'[a], perm'[a], r'[b], perm'[b]) {
      if a != i && b != i {
        var a', b' := if a < i then a else a - 1, if b < i then b else b - 1;
        assert r'[a] == r[a'] && r'[b] == r[b'] && perm'[a] == perm[a'] && perm'[b] == perm[b'];
      }
    }
  }

  // ---- Building ----

  /** What finalizing writes into an expression entry that lacks it. */
  function Annotated(e: Entry, docs: map<int, string>, mods: map<int, string>, labels: map<int, string>): Entry {
    if !e.isExpr then e
    else e.(doc := if e.doc == "" && e.start in docs then docs[e.start] else e.doc,
            mod := if e.mod == "" && e.start in mods then mods[e.start] else e.mod,
            name := if e.name == "" && e.start in labels then labels[e.start] else e.name)
  }

  function AnnotatedAll(es: seq<Entry>, docs: map<int, string>, mods: map<int, string>, labels: map<int, string>): seq<Entry> {
    seq(|es|, i requires 0 <= i < |es| => Annotated(es[i], docs, mods, labels))
  }

  class Builder {
    var entries: seq<Entry>
    var pendingDocs: map<int, string>
    var pendingModules: map<int, string>
    var pendingLabels: map<int, string>

    /** Only non-empty spans are kept. */
    predicate Valid()
      reads this
    {
      forall i :: 0 <= i < |entries| ==> entries[i].start < entries[i].end
    }

    constructor ()
      ensures Valid() && entries == [] && pendingDocs == map[] && pendingModules == map[] && pendingLabels == map[]
    {
      entries, pendingDocs, pendingModules, pendingLabels := [], map[], map[], map[];
    }

    /** Record an entry; empty spans, and expressions of erroneous type, are dropped. */
    method Record(e: Entry, isError: bool)
      requires Valid()
      modifies this`entries
      ensures Valid()
      ensures entries == if e.start >= e.end || isError then old(entries) else old(entries) + [e]
    {
      if e.start >= e.end { return; }
      if isError { return; }
      entries := entries + [e];
    }

    method AttachVarInfo(start: int, end: int, name: string, mod: string, doc: string)
      requires Valid()
      modifies this`pendingDocs, this`pendingModules, this`pendingLabels
      ensures Valid()
      ensures start >= end ==>
        pendingDocs == old(pendingDocs) && pendingModules == old(pendingModules) && pendingLabels == old(pendingLabels)
      ensures start < end ==>
        && pendingDocs == (if doc != "" then old(pendingDocs)[start := doc] else old(pendingDocs))
        && pendingModules == (if mod != "" then old(pendingModules)[start := mod] else old(pendingModules))
        && pendingLabels == (if name != "" && mod != "" then old(pendingLabels)[start := name] else old(pendingLabels))
    {
      if start >= end { return; }
      if doc != "" { pendingDocs := pendingDocs[start := doc]; }
      if mod != "" { pendingModules := pendingModules[start := mod]; }
      if name != "" && mod != "" { pendingLabels := pendingLabels[start := name]; }
    }

    /** The index: every recorded entry, annotated, in a stable order. */
    method Finalize() returns (index: seq<Entry>, ghost perm: seq<nat>)
      requires Valid()
      modifies this
      ensures var all := old(AnnotatedAll(entries, pendingDocs, pendingModules, pendingLabels));
        StableSorted(all, index, perm) && multiset(index) == multiset(all)
      ensures Ordered(index) && entries == []
    {
      var es := [];
      for i := 0 to |entries|
        invariant entries == old(entries) && pendingDocs == old(pendingDocs)
        invariant pendingModules == old(pendingModules) && pendingLabels == old(pendingLabels)
        invariant |es| == i && forall j :: 0 <= j < i ==> es[j] == Annotated(entries[j], pendingDocs, pendingModules, pendingLabels)
      {
        es := es + [Annotated(entries[i], pendingDocs, pendingModules, pendingLabels)];
      }
      assert es == AnnotatedAll(entries, pendingDocs, pendingModules, pendingLabels);
      index, perm := SortStable(es);
      entries, pendingDocs, pendingModules, pendingLabels := [], map[], map[], map[];
    }
  }

  // ---- Whole runs of the builder ----

  /** What is told to the builder. */
  datatype Note =
    | Recorded(e: Entry, isError: bool)
    | Attached(start: int, end: int, name: string, mod: string, doc: string)

  /** The entries that are kept, in the order recorded. */
  function Kept(notes: seq<Note>): seq<Entry> {
    if notes == [] then []
    else
      var k := |notes| - 1;
      var n := notes[k];
      Kept(notes[..k]) + (if n.Recorded? && n.e.start < n.e.end && !n.isError then [n.e] else [])
  }

  /** What a note says about the position `pos`, "" if nothing. */
  function DocIn(n: Note, pos: int): string { if n.Attached? && n.start < n.end && n.start == pos then n.doc else "" }

  function ModIn(n: Note, pos: int): string { if n.Attached? && n.start < n.end && n.start == pos then n.mod else "" }

  /** A name counts only together with a module. */
  function NameIn(n: Note, pos: int): string {
    if n.Attached? && n.start < n.end && n.start == pos && n.mod != "" then n.name else ""
  }

  /** The latest note that says something decides. */
  function Latest(notes: seq<Note>, pos: int, part: (Note, int) -> string): string {
    if notes == [] then ""
    else
      var k := |notes| - 1;
      if part(notes[k], pos) != "" then part(notes[k], pos) else Latest(notes[..k], pos, part)
  }

  ghost predicate Holds(texts: map<int, string>, notes: seq<Note>, part: (Note, int) -> string) {
    forall pos :: if pos in texts then texts[pos] == Latest(notes, pos, part) else Latest(notes, pos, part) == ""
  }

  function AnnotatedBy(e: Entry, notes: seq<Note>): Entry {
    if !e.isExpr then e
    else e.(doc := if e.doc == "" then Latest(notes, e.start, DocIn) else e.doc,
            mod := if e.mod == "" then Latest(notes, e.start, ModIn) else e.mod,
            name := if e.name == "" then Latest(notes, e.start, NameIn) else e.name)
  }

  lemma SameAnnotations(es: seq<Entry>, docs: map<int, string>, mods: map<int, string>, labels: map<int, string>, notes: seq<Note>)
    requires Holds(docs, notes, DocIn) && Holds(mods, notes, ModIn) && Holds(labels, notes, NameIn)
    ensures AnnotatedAll(es, docs, mods, labels) == seq(|es|, i requires 0 <= i < |es| => AnnotatedBy(es[i], notes))
  {
    hide Latest;
  }

  lemma NoNotes()
    ensures Kept([]) == [] && Holds(map[], [], DocIn) && Holds(map[], [], ModIn) && Holds(map[], [], NameIn)
  {
  }

  /** One more note, and what it makes of a map of texts. */
  lemma HoldsNext(texts: map<int, string>, texts': map<int, string>, notes: seq<Note>, i: nat, part: (Note, int) -> string, pos: int)
    requires i < |notes| && Holds(texts, notes[..i], part)
    requires forall p :: p != pos ==> part(notes[i], p) == ""
    requires texts' == if part(notes[i], pos) != "" then texts[pos := part(notes[i], pos)] else texts
    ensures Holds(texts', notes[..i + 1], part)
  {
    assert notes[..i + 1][..i] == notes[..i] && notes[..i + 1][i] == notes[i];
    forall p ensures if p in texts' then texts'[p] == Latest(notes[..i + 1], p, part) else Latest(notes[..i + 1], p, part) == "" {
      assert Latest(notes[..i + 1], p, part) == if part(notes[i], p) != "" then part(notes[i], p) else Latest(notes[..i], p, part);
    }
  }

  /** From any run of notes: the entries kept, each expression that lacks a
      text given the latest one attached to its start, in a stable order. */
  method BuildIndex(notes: seq<Note>) returns (index: seq<Entry>, ghost perm: seq<nat>)
    ensures var es := Kept(notes); StableSorted(seq(|es|, i requires 0 <= i < |es| => AnnotatedBy(es[i], notes)), index, perm)
    ensures Ordered(index)
  {
    hide StableSorted, Ordered, Holds, Latest;
    var b := new Builder();
    NoNotes();
    assert notes[..0] == [];
    for i := 0 to |notes|
      invariant b.Valid() && fresh(b) && b.entries == Kept(notes[..i])
      invariant Holds(b.pendingDocs, notes[..i], DocIn) && Holds(b.pendingModules, notes[..i], ModIn)
      invariant Holds(b.pendingLabels, notes[..i], NameIn)
    {
      assert notes[..i + 1][..i] == notes[..i] && notes[..i + 1][i] == notes[i];
      ghost var docs, mods, labels := b.pendingDocs, b.pendingModules, b.pendingLabels;
      match notes[i] {
        case Recorded(e, isError) => b.Record(e, isError);
        case Attached(start, end, name, mod, doc) => b.AttachVarInfo(start, end, name, mod, doc);
      }
      ghost var pos := if notes[i].Attached? then notes[i].start else 0;
      HoldsNext(docs, b.pendingDocs, notes, i, DocIn, pos);
      HoldsNext(mods, b.pendingModules, notes, i, ModIn, pos);
      HoldsNext(labels, b.pendingLabels, notes, i, NameIn, pos);
    }
    assert notes[..|notes|] == notes;
    SameAnnotations(Kept(notes), b.pendingDocs, b.pendingModules, b.pendingLabels, notes);
    index, perm := b.Finalize();
  }

  // ---- Searching ----

  predicate Ordered(es: seq<Entry>) {
    && (forall i, j :: 0 <= i < j < |es| ==> es[i].start <= es[j].start)
    && (forall i :: 0 <= i < |es| ==> es[i].start < es[i].end)
  }

  /** The first index whose entry starts after `pos`, by bisection. */
  method FirstAfter(es: seq<Entry>, pos: int) returns (hi: nat)
    requires Ordered(es)
    ensures hi <= |es| && (forall i :: 0 <= i < hi ==> es[i].start <= pos) && (forall i :: hi <= i < |es| ==> es[i].start > pos)
  {
    var lo := 0;
    hi := |es|;
    while lo < hi
      invariant 0 <= lo <= hi <= |es|
      invariant (forall i :: 0 <= i < lo ==> es[i].start <= pos) && (forall i :: hi <= i < |es| ==> es[i].start > pos)
    {
      var mid := (lo + hi) / 2;
      if es[mid].start > pos { hi := mid; } else { lo := mid + 1; }
    }
  }

  /** `k` is a shortest entry containing `pos` among those from `from` on, and
      the last of those. */
  predicate Innermost(es: seq<Entry>, pos: int, from: nat, k: nat) {
    && from <= k < |es| && es[k].start <= pos < es[k].end
    && (forall i :: from <= i < |es| && es[i].start <= pos < es[i].end ==> es[k].end - es[k].start <= es[i].end - es[i].start)
    && (forall i :: k < i < |es| && es[i].start <= pos < es[i].end ==> es[k].end - es[k].start < es[i].end - es[i].start)
  }

  predicate Uncovered(es: seq<Entry>, pos: int, from: nat) {
    forall i :: from <= i < |es| ==> !(es[i].start <= pos < es[i].end)
  }

  /** The innermost entry at an offset: none exactly when no entry contains it,
      else a shortest containing one, the last of those in the order. */
  method EntryAt(es: seq<Entry>, pos: int) returns (best: Maybe<nat>)
    requires Ordered(es)
    ensures best.Nothing? <==> Uncovered(es, pos, 0)
    ensures best.Just? ==> Innermost(es, pos, 0, best.value)
  {
    var hi := FirstAfter(es, pos);
    best := Nothing;
    var i := hi;
    while i > 0
      invariant 0 <= i <= hi
      invariant best.Nothing? ==> Uncovered(es, pos, i)
      invariant best.Just? ==> Innermost(es, pos, i, best.value)
    {
      i := i - 1;
      var e := es[i];
      if e.end <= pos {
        continue;
      }
      if best.Nothing? || Length(e) < Length(es[best.value]) {
        best := Just(i);
      }
      if pos - e.start > Length(es[best.value]) {
        forall j | 0 <= j < i && es[j].start <= pos < es[j].end ensures Length(es[j]) > Length(es[best.value]) {}
        break;
      }
    }
  }
}
