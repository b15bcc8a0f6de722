/**
  The Engine's two memoised cache-key fingerprints and every operation that
  touches what they are computed from. The digest is a parameter: any function
  of the sections that are written to the hasher.
 */
module Engine {
  import opened Records
  import opened ModStore

  datatype CompilerLimits = CompilerLimits(nestingLimit: int, maxTFSteps: int, maxSolverSteps: int, maxResolveDepth: int)

  datatype RuntimeLimits = RuntimeLimits(stepLimit: int, depthLimit: int, allocLimit: int)

  datatype PipelineFlags = PipelineFlags(entryPoint: string, denyAssumptions: bool, noInline: bool, verifyIR: bool)

  /** What affects compiled modules. */
  datatype ModuleSection = ModuleSection(
    registeredTys: map<string, string>,
    assumptions: map<string, string>,
    bindings: map<string, string>,
    gatedBuiltins: map<string, bool>,
    modules: seq<Fd<Maybe<string>>>,  // name and source, by name
    compilerLimits: CompilerLimits)

  /** The identity of a primitive: its explicit key, else its function pointer. */
  datatype PrimIdentity = Keyed(key: string) | Pointer(ptr: nat)

  /** What affects a runtime beyond its modules. */
  datatype RuntimeSection = RuntimeSection(
    runtimeLimits: RuntimeLimits,
    recursion: bool,
    entryPoint: string,
    denyAssumptions: bool,
    noInline: bool,
    verifyIR: bool,
    prims: map<string, PrimIdentity>,
    primSeq: nat)

  const DefaultEntryPoint: string := "main"

  function Sources(names: seq<string>, ms: Modules): seq<Fd<Maybe<string>>>
    requires forall n :: n in names ==> n in ms
  {
    seq(|names|, i requires 0 <= i < |names| => Fd(names[i], ms[names[i]].source))
  }

  function Identities(prims: map<string, nat>, keys: map<string, string>): map<string, PrimIdentity> {
    map n | n in prims :: if n in keys then Keyed(keys[n]) else Pointer(prims[n])
  }

  // ---- Module names ----

  predicate IsUpper(c: char) { 'A' <= c <= 'Z' }

  predicate IsNameChar(c: char) { IsUpper(c) || 'a' <= c <= 'z' || '0' <= c <= '9' || c == '_' }

  /** Dot-separated segments, each starting with a capital; `atStart` at the
      start of one. */
  predicate ValidFrom(s: string, atStart: bool) {
    if s == "" then !atStart
    else if atStart then IsUpper(s[0]) && ValidFrom(s[1..], false)
    else if s[0] == '.' then ValidFrom(s[1..], true)
    else IsNameChar(s[0]) && ValidFrom(s[1..], false)
  }

  predicate ValidModuleName(name: string) { ValidFrom(name, true) }

  /** What may stand at position `i`: a dot before a capital, or else a letter, a
      digit or an underscore. */
  predicate FitsAt(s: string, i: nat)
    requires i < |s|
  {
    if s[i] == '.' then i + 1 < |s| && 'A' <= s[i + 1] <= 'Z'
    else 'A' <= s[i] <= 'Z' || 'a' <= s[i] <= 'z' || '0' <= s[i] <= '9' || s[i] == '_'
  }

  predicate AllFit(s: string) { forall i :: 0 <= i < |s| ==> FitsAt(s, i) }

  lemma FitNext(s: string)
    requires s != ""
    ensures AllFit(s) <==> FitsAt(s, 0) && AllFit(s[1..])
  {
    var rest := s[1..];
    if AllFit(s) {
      forall i | 0 <= i < |rest| ensures FitsAt(rest, i) { assert FitsAt(s, i + 1); }
    }
    if FitsAt(s, 0) && AllFit(rest) {
      forall i | 0 <= i < |s| ensures FitsAt(s, i) { if i > 0 { assert FitsAt(rest, i - 1); } }
    }
  }

  lemma {:induction false} ValidFromIff(s: string, atStart: bool)
    ensures ValidFrom(s, atStart) <==> (atStart ==> s != "" && 'A' <= s[0] <= 'Z') && AllFit(s)
  {
    hide AllFit;
    if s == "" {
      NoneFit(s);
    } else {
      FitNext(s);
      ValidFromIff(s[1..], !atStart && s[0] == '.');
    }
  }

  lemma NoneFit(s: string)
    requires s == ""
    ensures AllFit(s)
  {
  }

  /** Module names: capitals at the start and after each dot, and no other
      characters than letters, digits, underscores and dots. */
  lemma ValidNameIff(name: string)
    ensures ValidModuleName(name)
       <==> name != "" && 'A' <= name[0] <= 'Z' && AllFit(name)
  {
    ValidFromIff(name, true);
  }

  class Engine<D(0)> {
    const moduleDigest: ModuleSection -> D
    const runtimeDigest: (D, RuntimeSection) -> D
    const store: ModuleStore

    var registeredTys: map<string, string>
    var assumptions: map<string, string>
    var bindings: map<string, string>
    var gatedBuiltins: map<string, bool>
    var prims: map<string, nat>
    var primKeys: map<string, string>
    var primSeq: nat
    var rewriteRules: seq<string>
    var compilerLimits: CompilerLimits
    var runtimeLimits: RuntimeLimits
    var flags: PipelineFlags

    var moduleEnvFpValid: bool
    var moduleEnvFp: D
    var runtimeFpValid: bool
    var runtimeFp: D

    /** What the fingerprints would be if computed now. */
    ghost function ModuleNow(): D
      reads this, store
    {
      moduleDigest(ModuleSection(registeredTys, assumptions, bindings, gatedBuiltins,
                                 Sources(NameList(store.modules.Keys), store.modules), compilerLimits))
    }

    function RuntimeSectionNow(): RuntimeSection
      reads this, store
    {
      RuntimeSection(runtimeLimits, store.recursion,
                     if flags.entryPoint == "" then DefaultEntryPoint else flags.entryPoint,
                     flags.denyAssumptions, flags.noInline, flags.verifyIR, Identities(prims, primKeys), primSeq)
    }

    ghost function RuntimeNow(): D
      reads this, store
    {
      runtimeDigest(ModuleNow(), RuntimeSectionNow())
    }

    /** A fingerprint flagged valid is the one computed now, and the runtime
        fingerprint is never valid alone. */
    ghost predicate Valid()
      reads this, store
    {
      && (runtimeFpValid ==> moduleEnvFpValid)
      && (moduleEnvFpValid ==> moduleEnvFp == ModuleNow())
      && (runtimeFpValid ==> runtimeFp == RuntimeNow())
      && store.CacheOk()
    }

    constructor (moduleDigest: ModuleSection -> D, runtimeDigest: (D, RuntimeSection) -> D, tys: map<string, string>)
      ensures Valid() && fresh(store) && store.modules == map[] && store.order == [] && !store.recursion
      ensures this.moduleDigest == moduleDigest && this.runtimeDigest == runtimeDigest && registeredTys == tys
      ensures assumptions == map[] && bindings == map[] && gatedBuiltins == map[]
      ensures prims == map[] && primKeys == map[] && primSeq == 0 && rewriteRules == []
      ensures compilerLimits == CompilerLimits(0, 0, 0, 0) && runtimeLimits == RuntimeLimits(1000000, 1000, 0)
      ensures flags == PipelineFlags("", false, false, false) && !moduleEnvFpValid && !runtimeFpValid
    {
      this.moduleDigest := moduleDigest;
      this.runtimeDigest := runtimeDigest;
      store := new ModuleStore();
      registeredTys, assumptions, bindings, gatedBuiltins := tys, map[], map[], map[];
      prims, primKeys, primSeq, rewriteRules := map[], map[], 0, [];
      compilerLimits := CompilerLimits(0, 0, 0, 0);
      runtimeLimits := RuntimeLimits(1000000, 1000, 0);
      flags := PipelineFlags("", false, false, false);
      moduleEnvFpValid, runtimeFpValid := false, false;
    }

    // ---- Fingerprints ----

    method InvalidateFingerprints()
      modifies this`moduleEnvFpValid, this`runtimeFpValid
      ensures !moduleEnvFpValid && !runtimeFpValid
    {
      moduleEnvFpValid := false;
      runtimeFpValid := false;
    }

    method InvalidateRuntimeFingerprint()
      modifies this`runtimeFpValid
      ensures !runtimeFpValid
    {
      runtimeFpValid := false;
    }

    method ModuleEnvFingerprint() returns (fp: D)
      requires Valid()
      modifies this`moduleEnvFp, this`moduleEnvFpValid, store`sortedNames
      ensures Valid() && fp == ModuleNow() && fp == old(ModuleNow())
      ensures moduleEnvFpValid && moduleEnvFp == fp
    {
      if moduleEnvFpValid {
        return moduleEnvFp;
      }
      var names := store.SortedModuleNames();
      moduleEnvFp := moduleDigest(ModuleSection(registeredTys, assumptions, bindings, gatedBuiltins,
                                                Sources(names, store.modules), compilerLimits));
      moduleEnvFpValid := true;
      fp := moduleEnvFp;
    }

    method RuntimeFingerprint() returns (fp: D)
      requires Valid()
      modifies this`moduleEnvFp, this`moduleEnvFpValid, this`runtimeFp, this`runtimeFpValid, store`sortedNames
      ensures Valid() && fp == RuntimeNow() && fp == old(RuntimeNow())
      ensures runtimeFpValid && runtimeFp == fp && moduleEnvFpValid
    {
      if runtimeFpValid {
        return runtimeFp;
      }
      var moduleFp := ModuleEnvFingerprint();
      runtimeFp := runtimeDigest(moduleFp, RuntimeSectionNow());
      runtimeFpValid := true;
      fp := runtimeFp;
    }

    // ---- Mutators of what modules are compiled against ----

    method DeclareBinding(name: string, ty: string)
      requires Valid()
      modifies this`bindings, this`moduleEnvFpValid, this`runtimeFpValid
      ensures Valid() && bindings == old(bindings)[name := ty]
    {
      bindings := bindings[name := ty];
      InvalidateFingerprints();
    }

    method DeclareAssumption(name: string, ty: string)
      requires Valid()
      modifies this`assumptions, this`moduleEnvFpValid, this`runtimeFpValid
      ensures Valid() && assumptions == old(assumptions)[name := ty]
    {
      assumptions := assumptions[name := ty];
      InvalidateFingerprints();
    }

    method RegisterType(name: string, kind: string)
      requires Valid()
      modifies this`registeredTys, this`moduleEnvFpValid, this`runtimeFpValid
      ensures Valid() && registeredTys == old(registeredTys)[name := kind]
    {
      registeredTys := registeredTys[name := kind];
      InvalidateFingerprints();
    }

    method EnableRecursion()
      requires Valid()
      modifies this`gatedBuiltins, this`moduleEnvFpValid, this`runtimeFpValid
      ensures Valid() && gatedBuiltins == old(gatedBuiltins)["rec" := true]["fix" := true]
    {
      gatedBuiltins := gatedBuiltins["rec" := true];
      gatedBuiltins := gatedBuiltins["fix" := true];
      InvalidateFingerprints();
    }

    method SetCompilerLimits(limits: CompilerLimits)
      requires Valid()
      modifies this`compilerLimits, this`moduleEnvFpValid, this`runtimeFpValid
      ensures Valid() && compilerLimits == limits
    {
      compilerLimits := limits;
      InvalidateFingerprints();
    }

    // ---- Mutators of runtime-only state ----

    method RegisterPrim(name: string, impl: nat)
      requires Valid()
      modifies this`prims, this`primSeq, this`runtimeFpValid
      ensures Valid() && prims == old(prims)[name := impl] && primSeq == old(primSeq) + 1
      ensures moduleEnvFpValid == old(moduleEnvFpValid)
    {
      prims := prims[name := impl];
      primSeq := primSeq + 1;
      InvalidateRuntimeFingerprint();
    }

    method RegisterPrimWithKey(name: string, impl: nat, key: string)
      requires Valid()
      modifies this`prims, this`primKeys, this`primSeq, this`runtimeFpValid
      ensures Valid() && prims == old(prims)[name := impl] && primKeys == old(primKeys)[name := key]
      ensures primSeq == old(primSeq) + 1
    {
      prims := prims[name := impl];
      primKeys := primKeys[name := key];
      primSeq := primSeq + 1;
      InvalidateRuntimeFingerprint();
    }

    method RegisterTypedPrim(name: string, ty: string, impl: nat)
      requires Valid()
      modifies this`assumptions, this`prims, this`primSeq, this`moduleEnvFpValid, this`runtimeFpValid
      ensures Valid() && assumptions == old(assumptions)[name := ty] && prims == old(prims)[name := impl]
      ensures primSeq == old(primSeq) + 1
    {
      DeclareAssumption(name, ty);
      RegisterPrim(name, impl);
    }

    method SetPipelineFlags(f: PipelineFlags)
      requires Valid()
      modifies this`flags, this`runtimeFpValid
      ensures Valid() && flags == f
    {
      flags := f;
      InvalidateRuntimeFingerprint();
    }

    method SetRuntimeLimits(limits: RuntimeLimits)
      requires Valid()
      modifies this`runtimeLimits, this`runtimeFpValid
      ensures Valid() && runtimeLimits == limits
    {
      runtimeLimits := limits;
      InvalidateRuntimeFingerprint();
    }

    /** Not part of any fingerprint. */
    method RegisterRewriteRule(rule: string)
      requires Valid()
      modifies this`rewriteRules
      ensures Valid() && rewriteRules == old(rewriteRules) + [rule]
      ensures ModuleNow() == old(ModuleNow()) && RuntimeNow() == old(RuntimeNow())
    {
      rewriteRules := rewriteRules + [rule];
    }

    // ---- Modules ----

    /** Compile and register. Compilation itself is outside: it is given both
        fingerprints of the engine as it stands, and `compiled` is its outcome,
        nothing when it fails or panics. */
    method RegisterModule(name: string, compiled: Maybe<Module>) returns (ok: bool, moduleFp: Maybe<D>)
      requires Valid()
      modifies this`moduleEnvFp, this`moduleEnvFpValid, this`runtimeFp, this`runtimeFpValid
      modifies store`modules, store`order, store`sortedNames
      ensures Valid()
      ensures ok <==> ValidModuleName(name) && name !in old(store.modules) && compiled.Just?
      ensures store.modules == (if ok then old(store.modules)[name := compiled.value] else old(store.modules))
      ensures store.order == (if ok then old(store.order) + [name] else old(store.order))
      ensures ok ==> !moduleEnvFpValid && !runtimeFpValid
      ensures moduleFp == if ValidModuleName(name) && name !in old(store.modules) then Just(old(ModuleNow())) else Nothing
    {
      hide ValidModuleName;
      if !ValidModuleName(name) {
        return false, Nothing;
      }
      if name in store.modules {
        return false, Nothing;
      }
      var fp := ModuleEnvFingerprint();
      var _ := RuntimeFingerprint();
      moduleFp := Just(fp);
      if compiled.Nothing? {
        return false, moduleFp;
      }
      store.Register(name, compiled.value);
      InvalidateFingerprints();
      ok := true;
    }

    /** Register with `rec` and `fix` open for this one compilation. The gates
        come back as they were, whether or not it succeeds. */
    method RegisterModuleRec(name: string, compiled: Maybe<Module>) returns (ok: bool, moduleFp: Maybe<D>)
      requires Valid()
      modifies this`gatedBuiltins, this`moduleEnvFp, this`moduleEnvFpValid, this`runtimeFp, this`runtimeFpValid
      modifies store`modules, store`order, store`sortedNames, store`recursion
      ensures Valid() && gatedBuiltins == old(gatedBuiltins)
      ensures ok <==> ValidModuleName(name) && name !in old(store.modules) && compiled.Just?
      ensures store.modules == (if ok then old(store.modules)[name := compiled.value] else old(store.modules))
      ensures store.recursion == (old(store.recursion) || ok)
      ensures !moduleEnvFpValid && !runtimeFpValid
      ensures moduleFp.Just? ==> moduleFp.value == moduleDigest(ModuleSection(
        old(registeredTys), old(assumptions), old(bindings), old(gatedBuiltins)["rec" := true]["fix" := true],
        Sources(NameList(old(store.modules.Keys)), old(store.modules)), old(compilerLimits)))
    {
      hide ValidModuleName;
      var saved := gatedBuiltins;
      gatedBuiltins := gatedBuiltins["rec" := true];
      gatedBuiltins := gatedBuiltins["fix" := true];
      InvalidateFingerprints();
      ok, moduleFp := RegisterModule(name, compiled);
      gatedBuiltins := saved;
      if ok { store.recursion := true; }
      InvalidateFingerprints();
    }
  }

  // ---- Whole runs ----

  datatype Mutation =
    | DeclareBinding(name: string, ty: string)
    | DeclareAssumption(name: string, ty: string)
    | RegisterType(name: string, kind: string)
    | EnableRecursion
    | SetCompilerLimits(climits: CompilerLimits)
    | RegisterPrim(name: string, impl: nat)
    | RegisterPrimWithKey(name: string, impl: nat, key: string)
    | RegisterTypedPrim(name: string, ty: string, impl: nat)
    | SetPipelineFlags(flags: PipelineFlags)
    | SetRuntimeLimits(rlimits: RuntimeLimits)
    | RegisterRewriteRule(rule: string)
    | RegisterModule(name: string, compiled: Maybe<Module>)
    | RegisterModuleRec(name: string, compiled: Maybe<Module>)
    | AskModuleFingerprint
    | AskRuntimeFingerprint

  /** Everything the fingerprints depend on. */
  datatype State = State(
    registeredTys: map<string, string>, assumptions: map<string, string>, bindings: map<string, string>,
    gatedBuiltins: map<string, bool>, prims: map<string, nat>, primKeys: map<string, string>, primSeq: nat,
    compilerLimits: CompilerLimits, runtimeLimits: RuntimeLimits, flags: PipelineFlags,
    modules: Modules, recursion: bool)

  predicate Accepts(s: State, name: string, compiled: Maybe<Module>) {
    ValidModuleName(name) && name !in s.modules && compiled.Just?
  }

  /** The net effect of one operation. */
  function After(s: State, m: Mutation): State {
    match m
    case DeclareBinding(n, ty) => s.(bindings := s.bindings[n := ty])
    case DeclareAssumption(n, ty) => s.(assumptions := s.assumptions[n := ty])
    case RegisterType(n, k) => s.(registeredTys := s.registeredTys[n := k])
    case EnableRecursion => s.(gatedBuiltins := s.gatedBuiltins["rec" := true]["fix" := true])
    case SetCompilerLimits(l) => s.(compilerLimits := l)
    case RegisterPrim(n, i) => s.(prims := s.prims[n := i], primSeq := s.primSeq + 1)
    case RegisterPrimWithKey(n, i, k) =>
      s.(prims := s.prims[n := i], primKeys := s.primKeys[n := k], primSeq := s.primSeq + 1)
    case RegisterTypedPrim(n, ty, i) =>
      s.(assumptions := s.assumptions[n := ty], prims := s.prims[n := i], primSeq := s.primSeq + 1)
    case SetPipelineFlags(f) => s.(flags := f)
    case SetRuntimeLimits(l) => s.(runtimeLimits := l)
    case RegisterModule(n, c) => if Accepts(s, n, c) then s.(modules := s.modules[n := c.value]) else s
    case RegisterModuleRec(n, c) =>
      if Accepts(s, n, c) then s.(modules := s.modules[n := c.value], recursion := true) else s
    case _ => s
  }

  function AfterAll(s: State, ms: seq<Mutation>): State {
    if ms == [] then s else After(AfterAll(s, ms[..|ms| - 1]), ms[|ms| - 1])
  }

  ghost function ModuleSectionOf(s: State): ModuleSection {
    ModuleSection(s.registeredTys, s.assumptions, s.bindings, s.gatedBuiltins,
                  Sources(NameList(s.modules.Keys), s.modules), s.compilerLimits)
  }

  ghost function ModuleDigestOf<D(!new)>(digest: ModuleSection -> D, s: State): D { digest(ModuleSectionOf(s)) }

  function RuntimeSectionOf(s: State): RuntimeSection {
    RuntimeSection(s.runtimeLimits, s.recursion, if s.flags.entryPoint == "" then DefaultEntryPoint else s.flags.entryPoint,
                   s.flags.denyAssumptions, s.flags.noInline, s.flags.verifyIR, Identities(s.prims, s.primKeys), s.primSeq)
  }

  // ---- What the sections tell apart ----

  /** The same modules with the same sources, where either has one. */
  predicate SameSources(a: Modules, b: Modules) {
    a.Keys == b.Keys && forall n :: n in a ==> a[n].source == b[n].source
  }

  lemma SourcesIff(a: Modules, b: Modules)
    ensures Sources(NameList(a.Keys), a) == Sources(NameList(b.Keys), b) <==> SameSources(a, b)
  {
    var xs, ys := NameList(a.Keys), NameList(b.Keys);
    var fs, gs := Sources(xs, a), Sources(ys, b);
    if fs == gs {
      forall i | 0 <= i < |xs| ensures xs[i] == ys[i] { assert fs[i].lbl == xs[i] && gs[i].lbl == ys[i]; }
      assert xs == ys;
      forall n ensures n in a <==> n in b { assert n in xs <==> n in ys; }
      forall n | n in a ensures a[n].source == b[n].source {
        assert n in xs;
        var i :| 0 <= i < |xs| && xs[i] == n;
        assert fs[i].val == a[n].source && gs[i].val == b[n].source;
      }
    }
  }

  /** Two states have the same module section exactly when they agree on types,
      assumptions, bindings, gates, limits, module names and module sources. */
  lemma ModuleSectionIff(s: State, t: State)
    ensures ModuleSectionOf(s) == ModuleSectionOf(t) <==>
      && s.registeredTys == t.registeredTys && s.assumptions == t.assumptions && s.bindings == t.bindings
      && s.gatedBuiltins == t.gatedBuiltins && s.compilerLimits == t.compilerLimits
      && s.modules.Keys == t.modules.Keys && forall n :: n in s.modules ==> s.modules[n].source == t.modules[n].source
  {
    hide NameList, Sources;
    SourcesIff(s.modules, t.modules);
  }

  /** The same key, or no key and the same function. */
  predicate SamePrim(s: State, t: State, n: string)
    requires n in s.prims && n in t.prims
  {
    if n in s.primKeys then n in t.primKeys && s.primKeys[n] == t.primKeys[n]
    else n !in t.primKeys && s.prims[n] == t.prims[n]
  }

  function EntryPoint(f: PipelineFlags): string { if f.entryPoint == "" then "main" else f.entryPoint }

  /** Two states have the same runtime section exactly when they agree on limits,
      recursion, entry point ("main" by default), flags, the names and identities
      of primitives, and the number of registrations. */
  lemma RuntimeSectionIff(s: State, t: State)
    ensures RuntimeSectionOf(s) == RuntimeSectionOf(t) <==>
      && s.runtimeLimits == t.runtimeLimits && s.recursion == t.recursion && EntryPoint(s.flags) == EntryPoint(t.flags)
      && s.flags.denyAssumptions == t.flags.denyAssumptions && s.flags.noInline == t.flags.noInline
      && s.flags.verifyIR == t.flags.verifyIR && s.primSeq == t.primSeq
      && s.prims.Keys == t.prims.Keys && forall n :: n in s.prims ==> SamePrim(s, t, n)
  {
    IdentitiesIff(s, t);
  }

  lemma IdentitiesIff(s: State, t: State)
    ensures Identities(s.prims, s.primKeys) == Identities(t.prims, t.primKeys) <==>
      s.prims.Keys == t.prims.Keys && forall n :: n in s.prims ==> SamePrim(s, t, n)
  {
    var a, b := Identities(s.prims, s.primKeys), Identities(t.prims, t.primKeys);
    assert a.Keys == s.prims.Keys && b.Keys == t.prims.Keys;
    if a == b {
      forall n | n in s.prims ensures SamePrim(s, t, n) { assert a[n] == b[n]; }
    }
    if s.prims.Keys == t.prims.Keys && forall n :: n in s.prims ==> SamePrim(s, t, n) {
      forall n | n in a ensures a[n] == b[n] { assert SamePrim(s, t, n); }
    }
  }

  function StateOf<D(0)>(e: Engine<D>): State
    reads e, e.store
  {
    State(e.registeredTys, e.assumptions, e.bindings, e.gatedBuiltins, e.prims, e.primKeys, e.primSeq,
          e.compilerLimits, e.runtimeLimits, e.flags, e.store.modules, e.store.recursion)
  }

  method Perform<D(0)>(e: Engine<D>, m: Mutation)
    requires e.Valid()
    modifies e, e.store
    ensures e.Valid() && StateOf(e) == old(After(StateOf(e), m))
  {
    if m.RegisterPrim? || m.RegisterPrimWithKey? || m.RegisterTypedPrim? {
      PerformPrim(e, m);
    } else if m.SetPipelineFlags? || m.SetRuntimeLimits? {
      PerformRuntime(e, m);
    } else if m.RegisterModule? {
      PerformModule(e, m);
    } else if m.RegisterModuleRec? {
      PerformModuleRec(e, m);
    } else if m.AskModuleFingerprint? || m.AskRuntimeFingerprint? {
      var _, _ := Ask(e);
    } else {
      PerformHost(e, m);
    }
  }

  method PerformHost<D(0)>(e: Engine<D>, m: Mutation)
    requires e.Valid() && (m.DeclareBinding? || m.DeclareAssumption? || m.RegisterType? || m.EnableRecursion?
                           || m.SetCompilerLimits? || m.RegisterRewriteRule?)
    modifies e, e.store
    ensures e.Valid() && StateOf(e) == old(After(StateOf(e), m))
  {
    hide NameList, Sources, ValidModuleName, Identities;
    match m {
      case DeclareBinding(n, ty) => e.DeclareBinding(n, ty);
      case DeclareAssumption(n, ty) => e.DeclareAssumption(n, ty);
      case RegisterType(n, k) => e.RegisterType(n, k);
      case EnableRecursion => e.EnableRecursion();
      case SetCompilerLimits(l) => e.SetCompilerLimits(l);
      case RegisterRewriteRule(r) => e.RegisterRewriteRule(r);
    }
  }

  method PerformPrim<D(0)>(e: Engine<D>, m: Mutation)
    requires e.Valid() && (m.RegisterPrim? || m.RegisterPrimWithKey? || m.RegisterTypedPrim?)
    modifies e, e.store
    ensures e.Valid() && StateOf(e) == old(After(StateOf(e), m))
  {
    hide NameList, Sources, ValidModuleName, Identities;
    match m {
      case RegisterPrim(n, i) => e.RegisterPrim(n, i);
      case RegisterPrimWithKey(n, i, k) => e.RegisterPrimWithKey(n, i, k);
      case RegisterTypedPrim(n, ty, i) => e.RegisterTypedPrim(n, ty, i);
    }
  }

  method PerformRuntime<D(0)>(e: Engine<D>, m: Mutation)
    requires e.Valid() && (m.SetPipelineFlags? || m.SetRuntimeLimits?)
    modifies e, e.store
    ensures e.Valid() && StateOf(e) == old(After(StateOf(e), m))
  {
    hide NameList, Sources, ValidModuleName, Identities;
    match m {
      case SetPipelineFlags(f) => e.SetPipelineFlags(f);
      case SetRuntimeLimits(l) => e.SetRuntimeLimits(l);
    }
  }

  method PerformModule<D(0)>(e: Engine<D>, m: Mutation)
    requires e.Valid() && m.RegisterModule?
    modifies e, e.store
    ensures e.Valid() && StateOf(e) == old(After(StateOf(e), m))
  {
    hide NameList, Sources, ValidModuleName, Identities;
    var _, _ := e.RegisterModule(m.name, m.compiled);
  }

  method PerformModuleRec<D(0)>(e: Engine<D>, m: Mutation)
    requires e.Valid() && m.RegisterModuleRec?
    modifies e, e.store
    ensures e.Valid() && StateOf(e) == old(After(StateOf(e), m))
  {
    hide NameList, Sources, ValidModuleName, Identities;
    var _, _ := e.RegisterModuleRec(m.name, m.compiled);
  }

  method Ask<D(0)>(e: Engine<D>) returns (moduleFp: D, runtimeFp: D)
    requires e.Valid()
    modifies e, e.store
    ensures e.Valid() && StateOf(e) == old(StateOf(e))
    ensures moduleFp == e.ModuleNow() && runtimeFp == e.RuntimeNow()
  {
    hide NameList, Sources, Identities;
    moduleFp := e.ModuleEnvFingerprint();
    runtimeFp := e.RuntimeFingerprint();
  }

  /** After any run, the fingerprints handed out are those of the state that
      the operations add up to, however they were memoised on the way. */
  method RunThenAsk<D(0, !new)>(e: Engine<D>, ms: seq<Mutation>) returns (moduleFp: D, runtimeFp: D)
    requires e.Valid()
    modifies e, e.store
    ensures e.Valid() && StateOf(e) == old(AfterAll(StateOf(e), ms))
    ensures moduleFp == ModuleDigestOf(e.moduleDigest, StateOf(e))
    ensures runtimeFp == e.runtimeDigest(moduleFp, RuntimeSectionOf(StateOf(e)))
  {
    hide NameList, Sources, After, Identities;
    for i := 0 to |ms|
      invariant e.Valid() && StateOf(e) == old(AfterAll(StateOf(e), ms[..i]))
    {
      assert ms[..i + 1][..i] == ms[..i] && ms[..i + 1][i] == ms[i];
      Perform(e, ms[i]);
    }
    assert ms[..|ms|] == ms;
    moduleFp, runtimeFp := Ask(e);
  }
}
