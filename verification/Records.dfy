/**
  Record values: fields kept ascending by label, as the runtime keeps them.
 */
module Records {
  import opened Order

  datatype Fd<T> = Fd(lbl: string, val: T)

  function LabelsOf<T>(fs: seq<Fd<T>>): seq<string> {
    seq(|fs|, i requires 0 <= i < |fs| => fs[i].lbl)
  }

  function ValuesOf<T>(fs: seq<Fd<T>>): seq<T> {
    seq(|fs|, i requires 0 <= i < |fs| => fs[i].val)
  }

  function Zip<T>(ls: seq<string>, vs: seq<T>): (fs: seq<Fd<T>>)
    requires |ls| == |vs|
    ensures LabelsOf(fs) == ls && ValuesOf(fs) == vs
  {
    seq(|ls|, i requires 0 <= i < |ls| => Fd(ls[i], vs[i]))
  }

  /** Set one field, at its place in the order. */
  function Insert<T>(fs: seq<Fd<T>>, l: string, v: T): seq<Fd<T>> {
    if fs == [] then [Fd(l, v)]
    else if fs[0].lbl == l then [Fd(l, v)] + fs[1..]
    else if Less(l, fs[0].lbl) then [Fd(l, v)] + fs
    else [fs[0]] + Insert(fs[1..], l, v)
  }

  /** Set the fields `us` one after another. */
  function Put<T>(fs: seq<Fd<T>>, us: seq<Fd<T>>): seq<Fd<T>>
    decreases |us|
  {
    if us == [] then fs else Put(Insert(fs, us[0].lbl, us[0].val), us[1..])
  }

  datatype Maybe<T> = Nothing | Just(value: T)

  function Get<T>(fs: seq<Fd<T>>, l: string): Maybe<T> {
    if fs == [] then Nothing else if fs[0].lbl == l then Just(fs[0].val) else Get(fs[1..], l)
  }

  ghost predicate Sorted<T>(fs: seq<Fd<T>>) { Ascending(LabelsOf(fs)) }

  ghost predicate DistinctLabels(ls: seq<string>) {
    forall i, j :: 0 <= i < j < |ls| ==> ls[i] != ls[j]
  }

  lemma SortedTail<T>(fs: seq<Fd<T>>)
    requires Sorted(fs) && fs != []
    ensures Sorted(fs[1..])
    ensures forall i :: 0 <= i < |fs[1..]| ==> Less(fs[0].lbl, fs[1..][i].lbl)
  {
    var ls := LabelsOf(fs);
    assert LabelsOf(fs[1..]) == ls[1..];
    forall i | 0 <= i < |fs[1..]| ensures Less(fs[0].lbl, fs[1..][i].lbl) { assert Less(ls[0], ls[i + 1]); }
  }

  lemma SortedCons<T>(f: Fd<T>, fs: seq<Fd<T>>)
    requires Sorted(fs) && forall i :: 0 <= i < |fs| ==> Less(f.lbl, fs[i].lbl)
    ensures Sorted([f] + fs)
  {
    var ls := LabelsOf([f] + fs);
    assert forall i :: 0 < i < |ls| ==> ls[i] == LabelsOf(fs)[i - 1] == fs[i - 1].lbl;
  }

  lemma {:induction false} InsertSorted<T>(fs: seq<Fd<T>>, l: string, v: T)
    requires Sorted(fs)
    ensures Sorted(Insert(fs, l, v))
    ensures forall i :: 0 <= i < |Insert(fs, l, v)| ==>
      Insert(fs, l, v)[i].lbl == l || Insert(fs, l, v)[i] in fs
  {
    if fs == [] {
    } else {
      SortedTail(fs);
      if fs[0].lbl == l {
        SortedCons(Fd(l, v), fs[1..]);
      } else if Less(l, fs[0].lbl) {
        forall i | 0 < i < |fs| ensures Less(l, fs[i].lbl) {
          assert fs[1..][i - 1] == fs[i];
          LessTransitive(l, fs[0].lbl, fs[i].lbl);
        }
        SortedCons(Fd(l, v), fs);
      } else {
        LessTotal(l, fs[0].lbl);
        InsertSorted(fs[1..], l, v);
        var t := Insert(fs[1..], l, v);
        forall i | 0 <= i < |t| ensures Less(fs[0].lbl, t[i].lbl) {
          if t[i].lbl != l { assert t[i] in fs[1..]; }
        }
        SortedCons(fs[0], t);
      }
    }
  }

  lemma {:induction false} GetInsert<T>(fs: seq<Fd<T>>, l: string, v: T, l': string)
    requires Sorted(fs)
    ensures Get(Insert(fs, l, v), l') == if l' == l then Just(v) else Get(fs, l')
  {
    if fs != [] {
      SortedTail(fs);
      if fs[0].lbl != l && !Less(l, fs[0].lbl) { GetInsert(fs[1..], l, v, l'); }
    }
  }

  /** The last field of `us` with that label, else the one already there. */
  lemma {:induction false} GetPut<T>(fs: seq<Fd<T>>, us: seq<Fd<T>>, l: string)
    requires Sorted(fs) && DistinctLabels(LabelsOf(us))
    ensures Sorted(Put(fs, us))
    ensures Get(Put(fs, us), l) == if Get(us, l).Just? then Get(us, l) else Get(fs, l)
    decreases |us|
  {
    if us != [] {
      InsertSorted(fs, us[0].lbl, us[0].val);
      assert LabelsOf(us[1..]) == LabelsOf(us)[1..];
      GetInsert(fs, us[0].lbl, us[0].val, l);
      GetPut(Insert(fs, us[0].lbl, us[0].val), us[1..], l);
      assert LabelsOf(us)[0] !in LabelsOf(us)[1..];
      if us[0].lbl == l { GetAbsent(us[1..], l); }
    }
  }

  lemma {:induction false} GetAbsent<T>(fs: seq<Fd<T>>, l: string)
    requires l !in LabelsOf(fs)
    ensures Get(fs, l).Nothing?
  {
    if fs != [] {
      assert LabelsOf(fs)[0] == fs[0].lbl && LabelsOf(fs[1..]) == LabelsOf(fs)[1..];
      GetAbsent(fs[1..], l);
    }
  }

  lemma {:induction false} GetAt<T>(fs: seq<Fd<T>>, i: nat)
    requires i < |fs| && DistinctLabels(LabelsOf(fs))
    ensures Get(fs, fs[i].lbl) == Just(fs[i].val)
  {
    assert LabelsOf(fs)[0] == fs[0].lbl && LabelsOf(fs)[i] == fs[i].lbl;
    if i > 0 {
      assert LabelsOf(fs[1..]) == LabelsOf(fs)[1..];
      GetAt(fs[1..], i - 1);
    }
  }

  lemma {:induction false} GetSome<T>(fs: seq<Fd<T>>, l: string)
    requires Get(fs, l).Just?
    ensures exists i :: 0 <= i < |fs| && fs[i].lbl == l && fs[i].val == Get(fs, l).value
  {
    if fs[0].lbl != l {
      GetSome(fs[1..], l);
      var i :| 0 <= i < |fs[1..]| && fs[1..][i].lbl == l && fs[1..][i].val == Get(fs[1..], l).value;
      assert fs[i + 1] == fs[1..][i];
    }
  }

  lemma SortedDistinct<T>(fs: seq<Fd<T>>)
    requires Sorted(fs)
    ensures DistinctLabels(LabelsOf(fs))
  {
    var ls := LabelsOf(fs);
    forall i, j | 0 <= i < j < |ls| ensures ls[i] != ls[j] { LessIrreflexive(ls[i]); }
  }

  /** A sorted record is determined by what its labels hold. */
  lemma {:induction false} SortedExt<T>(a: seq<Fd<T>>, b: seq<Fd<T>>)
    requires Sorted(a) && Sorted(b) && forall l :: Get(a, l) == Get(b, l)
    ensures a == b
  {
    forall x ensures x in LabelsOf(a) <==> x in LabelsOf(b) {
      LabelIffGet(a, x);
      LabelIffGet(b, x);
    }
    AscendingUnique(LabelsOf(a), LabelsOf(b));
    assert |a| == |LabelsOf(a)| == |b|;
    forall i | 0 <= i < |a| ensures a[i] == b[i] {
      assert LabelsOf(a)[i] == a[i].lbl && LabelsOf(b)[i] == b[i].lbl;
      SortedDistinct(a);
      SortedDistinct(b);
      GetAt(a, i);
      GetAt(b, i);
    }
  }

  lemma LabelIffGet<T>(fs: seq<Fd<T>>, l: string)
    ensures l in LabelsOf(fs) <==> Get(fs, l).Just?
  {
    if l in LabelsOf(fs) {
      var i :| 0 <= i < |fs| && LabelsOf(fs)[i] == l;
      GetFound(fs, i);
    } else {
      GetAbsent(fs, l);
    }
  }

  lemma {:induction false} GetFound<T>(fs: seq<Fd<T>>, i: nat)
    requires i < |fs|
    ensures Get(fs, fs[i].lbl).Just?
  {
    if i > 0 && fs[0].lbl != fs[i].lbl { GetFound(fs[1..], i - 1); }
  }

  /** Setting the fields of a sorted record over nothing gives it back. */
  lemma PutSorted<T>(fs: seq<Fd<T>>)
    requires Sorted(fs)
    ensures Put([], fs) == fs
  {
    SortedDistinct(fs);
    forall l ensures Get(Put([], fs), l) == Get(fs, l) { GetPut([], fs, l); }
    GetPut([], fs, "");
    SortedExt(Put([], fs), fs);
  }

  /** The fields of `us` whose label is not set again by `vs`. */
  function Unshadowed<T>(us: seq<Fd<T>>, vs: seq<string>): seq<Fd<T>> {
    if us == [] then []
    else if us[0].lbl in vs then Unshadowed(us[1..], vs)
    else [us[0]] + Unshadowed(us[1..], vs)
  }

  lemma {:induction false} GetUnshadowed<T>(us: seq<Fd<T>>, vs: seq<string>, l: string)
    ensures Get(Unshadowed(us, vs), l) == if l in vs then Nothing else Get(us, l)
    ensures forall i :: 0 <= i < |Unshadowed(us, vs)| ==> Unshadowed(us, vs)[i] in us && Unshadowed(us, vs)[i].lbl !in vs
  {
    if us != [] { GetUnshadowed(us[1..], vs, l); }
  }

  lemma {:induction false} UnshadowedDistinct<T>(us: seq<Fd<T>>, vs: seq<string>)
    requires DistinctLabels(LabelsOf(us))
    ensures DistinctLabels(LabelsOf(Unshadowed(us, vs)))
  {
    if us != [] {
      assert LabelsOf(us[1..]) == LabelsOf(us)[1..];
      UnshadowedDistinct(us[1..], vs);
      if us[0].lbl !in vs {
        var t := Unshadowed(us[1..], vs);
        GetUnshadowed(us[1..], vs, "");
        forall j | 0 <= j < |t| ensures t[j].lbl != us[0].lbl {
          var k :| 0 <= k < |us[1..]| && us[1..][k] == t[j];
          assert LabelsOf(us)[k + 1] == us[k + 1].lbl && LabelsOf(us)[0] == us[0].lbl;
        }
        var r := LabelsOf(Unshadowed(us, vs));
        assert forall i :: 0 < i < |r| ==> r[i] == LabelsOf(t)[i - 1] == t[i - 1].lbl;
      }
    }
  }

  lemma {:induction false} GetAppend<T>(a: seq<Fd<T>>, b: seq<Fd<T>>, l: string)
    ensures Get(a + b, l) == if Get(a, l).Just? then Get(a, l) else Get(b, l)
  {
    if a == [] {
      assert a + b == b;
    } else {
      assert (a + b)[1..] == a[1..] + b;
      GetAppend(a[1..], b, l);
    }
  }

  /** Two updates in a row are one update with the shadowed fields left out. */
  lemma PutChain<T>(fs: seq<Fd<T>>, us: seq<Fd<T>>, vs: seq<Fd<T>>)
    requires Sorted(fs) && DistinctLabels(LabelsOf(us)) && DistinctLabels(LabelsOf(vs))
    ensures DistinctLabels(LabelsOf(Unshadowed(us, LabelsOf(vs)) + vs))
    ensures Put(Put(fs, us), vs) == Put(fs, Unshadowed(us, LabelsOf(vs)) + vs)
  {
    var rest := Unshadowed(us, LabelsOf(vs));
    ChainDistinct(us, vs);
    GetPut(fs, us, "");
    GetPut(Put(fs, us), vs, "");
    GetPut(fs, rest + vs, "");
    forall l ensures Get(Put(Put(fs, us), vs), l) == Get(Put(fs, rest + vs), l) {
      GetPut(fs, us, l);
      GetPut(Put(fs, us), vs, l);
      GetPut(fs, rest + vs, l);
      GetUnshadowed(us, LabelsOf(vs), l);
      GetAppend(rest, vs, l);
      LabelIffGet(vs, l);
    }
    SortedExt(Put(Put(fs, us), vs), Put(fs, rest + vs));
  }

  lemma ChainDistinct<T>(us: seq<Fd<T>>, vs: seq<Fd<T>>)
    requires DistinctLabels(LabelsOf(us)) && DistinctLabels(LabelsOf(vs))
    ensures DistinctLabels(LabelsOf(Unshadowed(us, LabelsOf(vs)) + vs))
  {
    var rest := Unshadowed(us, LabelsOf(vs));
    UnshadowedDistinct(us, LabelsOf(vs));
    GetUnshadowed(us, LabelsOf(vs), "");
    var ls := LabelsOf(rest + vs);
    assert ls == LabelsOf(rest) + LabelsOf(vs);
    forall i, j | 0 <= i < |rest| && 0 <= j < |vs| ensures LabelsOf(rest)[i] != LabelsOf(vs)[j] {
      assert rest[i].lbl !in LabelsOf(vs);
      assert LabelsOf(vs)[j] in LabelsOf(vs);
    }
  }

  // ---- Two records related field by field ----

  ghost predicate Related<T(!new)>(R: (T, T) -> bool, a: seq<Fd<T>>, b: seq<Fd<T>>) {
    |a| == |b| && forall i :: 0 <= i < |a| ==> a[i].lbl == b[i].lbl && R(a[i].val, b[i].val)
  }

  lemma {:induction false} GetRelated<T(!new)>(R: (T, T) -> bool, a: seq<Fd<T>>, b: seq<Fd<T>>, l: string)
    requires Related(R, a, b)
    ensures Get(a, l).Just? <==> Get(b, l).Just?
    ensures Get(a, l).Just? ==> R(Get(a, l).value, Get(b, l).value)
  {
    if a != [] { GetRelated(R, a[1..], b[1..], l); }
  }

  lemma {:induction false} InsertRelated<T(!new)>(R: (T, T) -> bool, a: seq<Fd<T>>, b: seq<Fd<T>>, l: string, x: T, y: T)
    requires Related(R, a, b) && R(x, y)
    ensures Related(R, Insert(a, l, x), Insert(b, l, y))
  {
    if a != [] && a[0].lbl != l && !Less(l, a[0].lbl) { InsertRelated(R, a[1..], b[1..], l, x, y); }
  }

  lemma {:induction false} PutRelated<T(!new)>(R: (T, T) -> bool, a: seq<Fd<T>>, b: seq<Fd<T>>, us: seq<Fd<T>>, vs: seq<Fd<T>>)
    requires Related(R, a, b) && Related(R, us, vs)
    ensures Related(R, Put(a, us), Put(b, vs))
    decreases |us|
  {
    if us != [] {
      InsertRelated(R, a, b, us[0].lbl, us[0].val, vs[0].val);
      PutRelated(R, Insert(a, us[0].lbl, us[0].val), Insert(b, vs[0].lbl, vs[0].val), us[1..], vs[1..]);
    }
  }

  lemma {:induction false} UnshadowedRelated<T(!new)>(R: (T, T) -> bool, a: seq<Fd<T>>, b: seq<Fd<T>>, ls: seq<string>)
    requires Related(R, a, b)
    ensures Related(R, Unshadowed(a, ls), Unshadowed(b, ls))
  {
    if a != [] { UnshadowedRelated(R, a[1..], b[1..], ls); }
  }
}
