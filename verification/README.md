# GICEL: verified models of the optimizer, the operator resolver and the checker's indexes

GICEL is a typed-language compiler and embedding engine written in Go. This
project models its hardest code in Dafny and proves what that code is for.

**The Core optimizer.** Core is a datatype of twenty term formers with named
binders (`CoreIR`). Capture-avoiding simultaneous substitution (`Subst`, with the
fresh-name counter threaded through `FreshNames`) is measured against nameless
terms and textbook index substitution (`Nameless`, `Translate`); `SubstCorrect`
proves that the two agree on every former, `SubstLimits` says exactly for which
substitutions and terms they do, and `SyntaxLaws` what they do to the letter. The rewrites (`Rewrites`) are measured against a
call-by-value evaluator for type-erased nameless terms (`Eval`), in the order the
bytecode machine evaluates. `Contract` states each rewrite as a contraction of
nameless terms, `ContractAct` and `ContractEval` give their algebra, `Refine`
defines contraction at any number of places at once, with each side in a world of
its own, and `Simulate` proves, by a simulation over fuel and derivation depth,
that related terms compute related values. `ContractIff` turns each contraction
into an equivalence, with exactly what it leaves unevaluated as the condition.
`RewriteRight`, `TypeRules`, `KnownRules` and `CommuteRules` show that every named
rewrite is such a contraction, `RewriteIff` carries the equivalences over to them,
and `DictRules` does the case on a known dictionary, which unfolds a global.
`TypeMeaning` gives the types that terms carry a meaning in any interpretation and
says exactly when the two type-level rewrites keep it.
`Optimizer` is the pass itself, as functions and as the object that mutates its
`changed` flag and the counter; `Fires` says exactly when each rewrite fires and that the
optimizer ends on an expression without redexes or with its fourth pass, `DictUse` that
dictionaries which are collected are used. `OptimizerRight` concludes that an optimized
expression computes every first-order value the original computes, under all
binders and through all passes, and `ProgramRight` that a program whose bindings
are all replaced loads, in any order, as the original does. Both ask that the
known-scrutinee rewrites meet their guards along the run; `Tidy` and `ProgramTidy`
replace that by a condition on the input program, which every rewrite keeps, with
constructors at the head of application spines counted by `Spines`. The runtime sorts
the bindings after optimizing: `SortBindings` is that sort, `Mentions` bounds what
evaluation looks at and what rewrites mention, `LoadOrder` shows which orders load and
that they agree, and `ProgramSorted` concludes that a program which loads as sorted
still loads once it is optimized and sorted anew. `KnownLimits` collects what known cases lose.

**Operator precedence.** `Resolve` models the two-stack shunting yard with left-,
right- and non-associative operators: a parser/printer theorem against an
independent notion of precedence-correct tree, exact error reporting, and undeclared
operators that bind as `infixl 9`.

**Graphs.** `ColourSearch` is the three-colour search of the superclass and alias
graphs with closure computation; `ModStore` is the import-cycle check that guards
module registration, and the operators visible through imports.

**Indexes and caches.** `TokBuf` (compacting, speculative token buffer against the
token sequence), `Engine` (two memoised fingerprints against recomputation),
`TypingContext` (three indexes against linear scans), `Hover` (pruned search
against all spans) and `TypeMatch` (type family equations).

## What the models show

- Simultaneous substitution is right on all terms whose label payloads bind names
  in P and whose functions bind names in F exactly when P has no name that is free
  in a replacement and F no replaced name that is free in the replacement of another
  (`SubstRightIff`). The `Lam` and `Fix` branches that meet a replaced name as binder
  make no capture test, so without payloads the condition is that no replaced name
  is free in the replacement of another (`RightIffCrossFree`); single-name
  substitution needs none.
- Pattern renaming does not reach the payload variable of a label pattern. So
  single-name substitution is right on all terms with payloads in P exactly when no
  name in P is free, qualified or not, in the replacement (`PayloadRightIff`); for
  such a name the body is renamed and the pattern is not (`PayloadDangles`).
- Case-of-known-constructor takes the alternative that evaluation takes, for all
  arguments, exactly when no catch-all comes first, the constructor is saturated
  and its sub-patterns are variables and wildcards (`CtorFirstIff`);
  case-of-known-literal exactly when no wildcard comes before its choice
  (`LitFirstIff`). Pattern variables that occur in each other's replacements are
  captured (`CrossingCaptured`).
- The spine normalization used for dictionaries keeps the value exactly when the
  head constructor holds no arguments yet (`NormalizedIff`).
- Pushing a case or bind into the branches, force of thunk and primitive absorption
  change nothing; known literals change nothing within their guard, as far as
  first-order results go. Beta, bind of pure, projection, update chains and
  known constructors may make a failing program succeed (`DropsFailingArgument`): the
  original computes a value exactly when the result does and everything that was
  dropped or substituted unevaluated evaluates (`RewriteIff`).
- Type-level beta keeps what every type in the body means, with the variable standing
  for the argument, exactly when no inner type abstraction binds a variable of the
  argument above an occurrence that is replaced, and none rebinds the variable with
  the variable in its own kind, unless it is its own replacement (`TyAppBetaMeansIff`): the code renames no type variable
  and skips such a kind. Floating an argument below a type abstraction keeps what its
  types mean exactly when the abstracted variable is not free in them (`FloatMeansIff`).
- After a cycle has been reported, the colour search keeps its grey nodes and its
  path. A later report can name a cycle that is none (`FalseReport`); it is one exactly
  when every boundary between left-over parts of the path that it runs across is an
  edge, in particular when it starts within the current part (`ReportIff`). The
  verdict is right all the same, and so is every recorded closure.

## Model

| member | source | states |
|---|---|---|
| FreshNames.FreshInjective | internal/compiler/optimize/subst.go:33-38 | two draws of fresh names are equal only if both the base name and the counter value are |
| FreshNames.FreshIsOlder | internal/compiler/optimize/subst.go:26-38 | a drawn name cannot be produced by any later draw |
| FreshNames.FreshSpelling | internal/compiler/optimize/subst.go:33-38 | a fresh name is the base, `$r` and the decimal digits of the counter |
| Hygiene.RenameSwaps | internal/compiler/optimize/subst.go:43-80 | renaming a pattern variable exchanges it in the list of binders and touches nothing else, provided no label payload binds it |
| Hygiene.RenamesAwayIff | internal/compiler/optimize/subst.go:43-80 | after renaming, the old name is no longer bound exactly when no label payload bound it |
| Hygiene.ClashesRenamed | internal/compiler/optimize/subst.go:155-167 | the clash loop of a case alternative gives fresh, distinct names to exactly the binders free in the replacements |
| Hygiene.SubstHygienic | internal/compiler/optimize/subst.go:105-259 | substitution keeps terms hygienic: names stay older than the counter, patterns stay linear |
| Subst.SubstMany | internal/compiler/optimize/subst.go:105-259 | the counter never goes back, and a substitution of variables for variables keeps the node count, the measure on which the nested rename-then-substitute recursion ends |
| Subst.ActiveKeeps | internal/compiler/optimize/subst.go:146-152 | below a pattern exactly the substitutions for names it does not bind stay active, unchanged |
| Subst.WithoutKeyRemoves | internal/compiler/optimize/subst.go:497-508 | dropping a present key removes that key and nothing else, also on the one-element shortcut |
| SubstCorrect.SubstTrans | internal/compiler/optimize/subst.go:105-259 | in every environment, translating the result of a simultaneous substitution is translating the original with each replaced name standing for its replacement, when no function binds a replaced name that is free in another replacement |
| SubstCorrect.SubstManyRight | internal/compiler/optimize/subst.go:103-259 | simultaneous named substitution equals simultaneous nameless substitution on every hygienic term in which no function binds a replaced name that is free in another replacement |
| SubstCorrect.SubstFVRight | internal/compiler/optimize/subst.go:97-101 | single-name substitution is capture-avoiding on every hygienic term, with no condition relating name and replacement |
| SubstCorrect.SubstNothing | internal/compiler/optimize/subst.go:105-259 | with nothing to replace the result is alpha-equal to the term |
| SubstLimits.ShadowRightIff | internal/compiler/optimize/subst.go:118-123 | on the function \x. y with x and y both replaced, the result is right if and only if x is not free in what replaces y |
| SubstLimits.PayloadDangles | internal/compiler/optimize/subst.go:155-167 | on a label pattern whose payload must be avoided the body is renamed and the pattern is not: the result is wrong for every such name |
| SubstLimits.PayloadRightIff | internal/compiler/optimize/subst.go:77-78 | for every set of names, single-name substitution is right on all otherwise hygienic terms whose label payloads bind names in it if and only if none of them is free, qualified or not, in the replacement |
| SubstLimits.SubstRightIff | internal/compiler/optimize/subst.go:105-259 | for all sets P and F, a simultaneous substitution is right on all hygienic terms with payloads in P and function binders in F if and only if P has no name to avoid and F no replaced name free in another replacement |
| SubstLimits.RightIffCrossFree | internal/compiler/optimize/subst.go:105-259 | a simultaneous substitution is right on all hygienic terms without label payloads if and only if no replaced name is free in the replacement of another |
| SyntaxLaws.SubstIdle | internal/compiler/optimize/subst.go:105-259 | a term in which no replaced name is free and no binder is to be avoided comes back letter for letter, with the counter where it was |
| SyntaxLaws.FunRenamed | internal/compiler/optimize/subst.go:117-133 | the binder of a function or fixed point gets the next fresh name exactly when it is free in the replacements and not replaced itself |
| SyntaxLaws.BindRenamed | internal/compiler/optimize/subst.go:204-220 | the variable of a bind gets the next fresh name exactly when it is free in the replacements, replaced or not |
| SyntaxLaws.SizeNode | internal/compiler/optimize/cost.go:9-19 | the size is the number of nodes: one more than the sizes of the children, at every former |
| Translate.LocalsAreFree | internal/lang/ir/free.go:250-359 | the free-variable traversal finds every local occurrence |
| Records.PutChain | internal/compiler/optimize/optimize.go:409-421 | two record updates in a row are one update in which the fields set again are left out |
| ContractAct.ContractsAct | internal/compiler/optimize/optimize.go:190-217 | every contraction is stable under substitution for indices and free locals |
| ContractEval.SubstitutiveEval | internal/compiler/optimize/optimize.go:220-349 | beta, bind of pure and known cases fill the very body that evaluation enters, with terms that evaluate to what evaluation fills it with |
| ContractEval.FirstMatchIs | internal/runtime/vm/compiler_match.go:16-60 | alternatives are tried in order: the choice is the first that matches, and there is none exactly when all fail |
| ContractEval.PickedFirst | internal/compiler/optimize/optimize.go:246-270 | under the guard, first-match evaluation takes the alternative the rewrite takes, or is stuck |
| ContractEval.CollectsEval | internal/compiler/optimize/optimize.go:274-314 | the terms collected along a pattern evaluate to what matching binds in the value |
| ContractIff.ForceThunkIff | internal/compiler/optimize/optimize.go:369-379 | force of thunk: the redex yields a value if and only if the contractum does |
| ContractIff.PrimAbsorbIff | internal/compiler/optimize/optimize.go:430-457 | the same for absorbing an argument into a primitive |
| ContractIff.CommuteCaseIff | internal/compiler/optimize/case_of_case.go:21-139 | the same for moving a case or bind into the branches |
| ContractIff.ProjKnownIff | internal/compiler/optimize/optimize.go:382-397 | projection from a literal yields a value if and only if the field does, all fields evaluate and their labels are distinct |
| ContractIff.UpdateChainIff | internal/compiler/optimize/optimize.go:400-422 | two updates yield a value if and only if the merged one does, all inner updates evaluate, shadowed ones too, and their labels are distinct |
| ContractIff.SubstitutiveIff | internal/compiler/optimize/optimize.go:220-366 | a beta, bind-of-pure or known-case redex evaluates if and only if its contractum does and its own strict parts lead into a body, to the same first-order value |
| ContractIff.BetaIff | internal/compiler/optimize/optimize.go:220-234 | a beta redex evaluates if and only if the contractum and the argument do, to the same first-order value |
| ContractIff.BindPureIff | internal/compiler/optimize/optimize.go:352-366 | the same for bind of pure, whose expression has to evaluate to something other than a pending effect |
| ContractIff.KnownCaseIff | internal/compiler/optimize/optimize.go:237-349 | the same for known cases, whose scrutinee has to evaluate to something the alternative matches |
| Simulate.Sim | internal/compiler/optimize/optimize.go:190-217 | if the left of two related terms evaluates, so does the right one, to a related value, for every amount of fuel, also when the two run in different worlds with related globals |
| Chains.RefinesNode | internal/lang/ir/walk.go:487-573 | contractions inside the children are contractions of the node, under every binder |
| Chains.RefinesValue | internal/compiler/optimize/optimize.go:23-36 | a first-order value computed before any number of contractions is computed after them |
| NeatTerms.SubstOne | internal/compiler/optimize/subst.go:99-101 | substituting one term for one variable fills its index, in every environment |
| RewriteRight.BetaReduceRight | internal/compiler/optimize/optimize.go:220-234 | beta reduction is one contraction in every environment, and keeps terms neat |
| RewriteRight.BindPureElimRight | internal/compiler/optimize/optimize.go:352-366 | the same for bind of pure |
| RewriteRight.ForceThunkElimRight | internal/compiler/optimize/optimize.go:369-379 | the same for force of thunk |
| RewriteRight.RecordProjKnownRight | internal/compiler/optimize/optimize.go:382-397 | the same for projecting from a record literal, first field with that label |
| RewriteRight.RecordUpdateChainRight | internal/compiler/optimize/optimize.go:400-422 | the same for merging record updates, outer labels shadowing inner ones |
| RewriteRight.PrimOpAbsorbRight | internal/compiler/optimize/optimize.go:430-457 | the same for absorbing an argument into an unsaturated primitive, through type applications |
| TypeRules.SubstTyErased | internal/compiler/optimize/subst.go:319-494 | substituting for a type variable leaves the erased term unchanged in every environment |
| TypeRules.SubstTyUntouched | internal/compiler/optimize/subst.go:336-345 | a term in which the type variable is not free, in particular below a TyLam that rebinds it, is returned as it is |
| TypeRules.SubstTyGone | internal/compiler/optimize/subst.go:319-494 | every free occurrence is replaced |
| TypeRules.TyAppBetaErased | internal/compiler/optimize/subst.go:271-281 | type-level beta leaves the erased term unchanged, on every term and in every environment; what it does to the types is `TypeMeaning.TyAppBetaMeansIff` |
| TypeRules.AppTyLamFloatErased | internal/compiler/optimize/subst.go:291-306 | floating an argument past a type abstraction leaves the erased term unchanged, on every term and in every environment |
| TypeRules.TyAppBetaRight | internal/compiler/optimize/subst.go:271-281 | on neat terms the result of type-level beta is neat again and erases to the same term; what it does to the types is `TypeMeaning.TyAppBetaMeansIff` |
| TypeRules.AppTyLamFloatRight | internal/compiler/optimize/subst.go:291-306 | the same for floating an argument past a type abstraction |
| TypeMeaning.TyAppBetaMeans | internal/compiler/optimize/subst.go:271-281 | in every interpretation of types, each type in the result of type-level beta means what it meant in the body with the variable standing for what the argument means, and the rest of the term is the same, unless a type variable is captured or a kind missed |
| TypeMeaning.TyAppBetaMeansIff | internal/compiler/optimize/subst.go:319-345 | that holds, already for types taken as syntax, if and only if no inner type abstraction binds a variable of the argument above a free occurrence of the replaced one, and none rebinds the replaced variable with that variable in its kind, unless the argument is that variable itself |
| TypeMeaning.FloatMeansIff | internal/compiler/optimize/subst.go:291-306 | floating moves the argument below the type abstraction as it stands; its types keep their meaning for every value of the abstracted variable if and only if that variable is not free in them |
| KnownRules.CollectFits | internal/compiler/optimize/optimize.go:274-314 | collecting along a fitting pattern pairs its variables, in order, with the terms met |
| SyntaxLaws.CollectZip | internal/compiler/optimize/optimize.go:258-270 | sub-patterns that are distinct variables are paired with arguments as far as both lists go, and nothing else is collected |
| KnownRules.CaseOfKnownCtorRight | internal/compiler/optimize/optimize.go:237-270 | within its guard the constructor rewrite is one contraction in every environment |
| KnownRules.CaseOfKnownLitRight | internal/compiler/optimize/optimize.go:317-349 | within its guard the literal rewrite is one contraction in every environment |
| KnownRules.LitFirstIff | internal/compiler/optimize/optimize.go:317-349 | the literal rewrite takes the first matching alternative if and only if no wildcard precedes its choice |
| KnownRules.CtorFirstIff | internal/compiler/optimize/optimize.go:246-270 | the constructor rewrite takes the first matching alternative for all argument values if and only if no catch-all precedes it, the constructor is saturated and its sub-patterns are variables and wildcards |
| DictRules.NormalizeConApp | internal/compiler/optimize/optimize.go:151-175 | the loop computes the head of the spine and its value arguments left to right |
| DictRules.NormalizedIff | internal/compiler/optimize/optimize.go:151-175 | normalizing a spine that evaluates keeps its value if and only if the head constructor holds no arguments yet |
| DictRules.CaseOfKnownDictRight | internal/compiler/optimize/optimize.go:78-143 | a case on a dictionary variable may be resolved by the definition, normalized or not, wherever the names of the dictionary are left to the globals and the world holds its value |
| KnownLimits.SpineCaseIff | internal/compiler/optimize/optimize.go:129-141 | a case on a spine headed by a bare constructor evaluates if and only if the resolved case on the normalized spine does and that constructor evaluates to something the alternative matches |
| KnownLimits.DropsFailingArgument | internal/compiler/optimize/optimize.go:220-234 | a program that never evaluates can evaluate after beta reduction; `RewriteIff.BetaReduceIff` gives the exact condition |
| KnownLimits.CrossingCaptured | internal/compiler/optimize/optimize.go:246-270 | a concrete case on crossing variables is rewritten to the identity function; the guard excludes it |
| CommuteRules.RenamedLocals | internal/compiler/optimize/case_of_case.go:83-87 | renaming one variable introduces no free local but the new name |
| CommuteRules.AvoidCaptureRight | internal/compiler/optimize/case_of_case.go:71-89 | capture avoidance keeps the meaning of the alternative and leaves no binder among the names to avoid |
| CommuteRules.MovedFrame | internal/compiler/optimize/case_of_case.go:40-66 | outer alternatives or continuation moved below those binders are merely weakened |
| SyntaxLaws.DrawsExact | internal/compiler/optimize/case_of_case.go:71-80 | each clashing binder, in order, and no other, is given the next fresh name |
| SyntaxLaws.PushesPlainly | internal/compiler/optimize/case_of_case.go:49-66 | where nothing clashes, the outer expression is put around each branch and nothing else changes |
| CommuteRules.CaseOfCaseRight | internal/compiler/optimize/case_of_case.go:21-67 | case-of-case is the commuting contraction in every environment |
| CommuteRules.BindOfCaseRight | internal/compiler/optimize/case_of_case.go:95-139 | bind-of-case is the commuting contraction in every environment |
| CommuteRules.CaseOfCaseGrowth | internal/compiler/optimize/case_of_case.go:31-66 | a firing case-of-case over n branches adds exactly (n - 1)(1 + S) nodes, S at most 50 |
| CommuteRules.BindOfCaseGrowth | internal/compiler/optimize/case_of_case.go:105-139 | the same for bind-of-case |
| RewriteIff.CaseOfCaseIff | internal/compiler/optimize/case_of_case.go:21-67 | case-of-case changes nothing: both expressions yield the same values |
| RewriteIff.BindOfCaseIff | internal/compiler/optimize/case_of_case.go:95-139 | the same for bind-of-case |
| RewriteIff.ForceThunkElimIff | internal/compiler/optimize/optimize.go:369-379 | the same for force of thunk |
| RewriteIff.PrimOpAbsorbIff | internal/compiler/optimize/optimize.go:430-457 | the same for absorbing an argument into a primitive |
| RewriteIff.BetaReduceIff | internal/compiler/optimize/optimize.go:220-234 | where beta fires, the original evaluates if and only if the result and the argument do, to the same first-order value |
| RewriteIff.BindPureElimIff | internal/compiler/optimize/optimize.go:352-366 | the same for bind of pure, with the condition that the expression evaluates to something other than a pending effect |
| RewriteIff.RecordProjKnownIff | internal/compiler/optimize/optimize.go:382-397 | the original yields a value if and only if the field does, all fields evaluate and labels are distinct |
| RewriteIff.RecordUpdateChainIff | internal/compiler/optimize/optimize.go:400-422 | the original yields a value if and only if the merged update does, all inner updates evaluate and their labels are distinct |
| RewriteIff.CaseOfKnownCtorIff | internal/compiler/optimize/optimize.go:237-270 | within the guard, the original evaluates if and only if the result does and the constructor evaluates to something its alternative matches |
| RewriteIff.SureHits | internal/compiler/optimize/optimize.go:237-270 | where the alternative is sure to match, that condition is that every constructor argument evaluates, also those no variable stands for |
| RewriteIff.CaseOfKnownLitIff | internal/compiler/optimize/optimize.go:317-349 | within the guard a case on a literal evaluates if and only if the result does, to the same first-order value |
| Fires.FiresIff | internal/compiler/optimize/optimize.go:195-210 | for each of the twelve rewrites, exactly the nodes on which it fires, with the bound of 50 nodes for the two that copy |
| Fires.CtorAltIs | internal/compiler/optimize/optimize.go:246-256 | the alternative taken for a constructor is the first for that constructor of that module, and there is one exactly when some alternative is |
| Fires.LitAltIff | internal/compiler/optimize/optimize.go:317-349 | the alternative taken for a literal is the first that is that literal or a variable, else the last wildcard, else none |
| Fires.AlgebraicInTurn | internal/compiler/optimize/optimize.go:190-210 | the twelve rewrites run one after another in the order listed, each on the result of the one before |
| Fires.AlgebraicIff | internal/compiler/optimize/optimize.go:190-217 | some built-in rewrite fires on a node if and only if the node is a redex, and otherwise node and counter are kept |
| Optimizer.Rewriter.Apply | internal/compiler/optimize/optimize.go:190-217 | all rewrites in order on one node; the changed flag is set exactly when one fired |
| Optimizer.Rewriter.Transform | internal/lang/ir/walk.go:487-614 | one bottom-up pass, arguments before functions |
| Optimizer.RunOptimizer | internal/compiler/optimize/optimize.go:23-36 | the result is that of a chain of at most four passes from the input: every pass before the last fired, and the last fired only if it is the fourth |
| Fires.QuietPass | internal/lang/ir/walk.go:487-573 | a pass in which nothing fires returns the expression unchanged, and no node of it is a redex of a built-in rewrite or of a known dictionary |
| Fires.OptimizeEnds | internal/compiler/optimize/optimize.go:23-36 | the result has no redex at any node, or is what the fourth pass gave |
| Optimizer.CollectDicts | internal/compiler/optimize/optimize.go:83-107 | a key is present exactly when some binding of that name is generated, is a chain of type and term abstractions around a constructor or an application, and does not have its own key free, and it maps to the last such binding |
| Optimizer.LocalDictsIff | internal/compiler/optimize/optimize.go:83-107 | the same, of the function the loop computes, for every program and key |
| Optimizer.ConfigDicts | internal/compiler/optimize/optimize.go:118-127 | a dictionary is known if it is imported or collected, and the imported one is used |
| DictUse.DictResolved | internal/compiler/optimize/optimize.go:109-143 | a pass that comes to a case on a known dictionary fires and gives what case-of-known-constructor gives on the settled definition and the passed alternatives, which fires as well when some alternative is for its constructor |
| DictUse.MethodResolved | internal/compiler/optimize/optimize.go:45-62 | a program that matches on its own dictionary, a bare constructor applied to a method, as the checker emits it, ends with the method in place of the case |
| OptimizerRight.AlgebraicKeeps | internal/compiler/optimize/optimize.go:195-210 | the twelve rewrites one after another keep the meaning of a node |
| OptimizerRight.WithKidsBetter | internal/lang/ir/walk.go:491-573 | replacing subterms by better ones gives a better term, under all twenty formers |
| OptimizerRight.OptimizeRight | internal/compiler/optimize/optimize.go:23-36 | when known-scrutinee rewrites meet their guards along the run, the optimized expression computes every first-order value that the original computes |
| Spines.SubstSpined | internal/compiler/optimize/subst.go:105-259 | substitution lets no constructor go without arguments: counting those it holds and those due from the spine around it, if body and replacements give every constructor enough, so does the result, on every term |
| Spines.AlgebraicSpined | internal/compiler/optimize/optimize.go:195-210 | the same for all twelve rewrites in sequence, on every term and in every place |
| Spines.SpineCount | internal/compiler/optimize/optimize.go:151-175 | the argument list of a spine is long enough for its head |
| Tidy.TidyCtor | internal/compiler/optimize/optimize.go:237-270 | on input with simple patterns, catch-alls last, constructors that hold all arguments or none and get all of them from their spine, and function binders apart from pattern variables, the constructor rewrite is within its guard |
| Tidy.TidyPass | internal/lang/ir/walk.go:487-573 | a pass over such input stays within the guards and lets no constructor go without arguments, in function position too |
| Tidy.TidyPasses | internal/compiler/optimize/optimize.go:23-36 | that condition on the input is kept by every pass, fresh names included, so it implies the guards of the whole run |
| Tidy.OptimizeTidy | internal/compiler/optimize/optimize.go:23-36 | under that condition on the input alone, the optimized expression computes every first-order value that the original computes |
| Tidy.RebuildTidy | internal/compiler/check/bidir_lookup.go:51-52 | the condition holds of a function that matches and rebuilds a list with the constructor as a bare head, the form the checker emits |
| Optimizer.OptimizeProgram | internal/compiler/optimize/optimize.go:45-62 | every binding is overwritten by its optimized form, on one counter, with the program's own dictionaries collected before any is overwritten and imported ones taking precedence |
| ProgramRight.TasksAre | internal/compiler/optimize/optimize.go:58-61 | bindings are optimized in list order, each with a counter that is no less than the first |
| ProgramRight.LoadOne | internal/compiler/optimize/optimize.go:58-61 | a binding that evaluates among the original globals evaluates, optimized, among the optimized globals, to a related value |
| ProgramRight.OptimizeProgramRight | internal/compiler/optimize/optimize.go:45-62 | whatever the order of loading: if the original program loads, the program with all bindings optimized and its dictionaries inlined loads in the same order, and every global that is first-order data is the same, when the guards are met along the run |
| ProgramTidy.OptimizeProgramTidy | internal/compiler/optimize/optimize.go:45-62 | the same under conditions on the bindings as they stand: each is tidy, imported dictionaries and those loaded earlier fit it, those loaded later are not mentioned |
| Mentions.EvOnly | internal/lang/ir/free.go:250-359 | evaluation looks at no globals but those a term mentions and those their values mention in turn, and its value mentions no others |
| Mentions.ContractsOnly | internal/compiler/optimize/optimize.go:190-217 | no contraction mentions a global that the redex does not |
| LoadOrder.LoadsIff | internal/app/engine/pipeline.go:247 | loading step by step gives exactly the globals in which each binding has the value it gives once those before it are there |
| LoadOrder.LoadsUnique | internal/app/engine/pipeline.go:247 | two orders that both load make the same globals |
| LoadOrder.LoadsReordered | internal/lang/ir/deps.go:3-13 | a program that loads in one order loads in every other in which each binding comes after those it mentions, with the same result; for the rest of the list it is enough to come after what it came after before |
| SortBindings.Release | internal/lang/ir/deps.go:59-64 | after a binding is emitted, the counts are right again and exactly those that wait for none are queued or emitted, each once |
| SortBindings.DepsIff | internal/lang/ir/deps.go:19-35 | a binding depends on another exactly when that one is the last of its name and a variable of that name, qualified or not, is free in its expression |
| SortBindings.Sort | internal/lang/ir/deps.go:14-75 | the result is a permutation in which each binding comes after those it mentions, up to the ones left over, which wait for each other and stand in list order; of two that come to wait for nothing, the one ready sooner, or at once and earlier in the list, stands first; none is left over if and only if mentions do not go round |
| SortBindings.LoadsSorted | internal/app/engine/pipeline.go:247 | a program that loads in some order loads as sorted, with the same result |
| SortBindings.OptimizeProgramReordered | internal/app/engine/pipeline.go:247 | a tidy program that loads in some order still loads once optimized and sorted anew, with the same first-order data, when no binding is left over by the sort, or those left over come after what they came after before |
| ProgramSorted.FreeNarrower | internal/compiler/optimize/optimize.go:23-36 | an optimized expression has no free variables but those of the original and of inlined dictionary definitions |
| ProgramSorted.FreeVarsIff | internal/lang/ir/free.go:250-359 | on a neat term the traversal returns exactly the global and free local variables that occur in its nameless form |
| ProgramSorted.DepsShrink | internal/lang/ir/deps.go:29-43 | what an optimized binding that had a place in the sort depends on stood before it already |
| ProgramSorted.OptimizeProgramSorted | internal/app/engine/pipeline.go:178 | if the original program loads in the order it is sorted into, the optimized program loads in the order it is sorted into itself, with the same first-order data, mutual recursion included |
| Resolve.BuildCorrect | internal/compiler/parse/resolve.go:42-114 | every spine resolves to a precedence-correct tree with the same operands and operators in the same order |
| Resolve.RoundTrip | internal/compiler/parse/resolve.go:42-114 | resolving the in-order reading of a precedence-correct tree gives the tree back, for every fixity table |
| Resolve.CorrectUnique | internal/compiler/parse/resolve.go:42-114 | the precedence-correct tree of a spine is unique |
| Resolve.ClashesIff | internal/compiler/parse/resolve.go:69-79 | an error is reported if and only if some operator on the right spine of a left child has its parent's precedence and one of them is non-associative |
| Resolve.PopFor | internal/compiler/parse/resolve.go:63-98 | the inner loop completes exactly the operators that give way and notes each clash |
| Resolve.ResolveSpine | internal/compiler/parse/resolve.go:44-114 | the two stacks compute that tree, with operands and operators in order; it fits the table in which every undeclared operator of the spine is declared `infixl 9`, stated without any lookup, and the errors are exactly the clashes of that table, by position |
| Resolve.UndeclaredLeft9 | internal/compiler/parse/resolve.go:35-40 | with any table, tree and errors are those of the table in which the undeclared operators of the spine are `infixl 9` |
| Resolve.FitsRoundTrip | internal/compiler/parse/resolve.go:35-114 | every tree that fits that table is the one its own spine resolves to |
| ColourSearch.CollectExact | internal/compiler/check/class.go:346-357 | the union recorded for a finished class is exactly what it reaches |
| ColourSearch.Leave | internal/compiler/check/class.go:338-358 | turning a finished node black keeps the search invariant and rules out a cycle through it, also after earlier cycles |
| ColourSearch.Search.Visit | internal/compiler/check/class.go:309-360 | a visit blackens the node and all below it and restores the path, or extends the path until its last node points back at one on it and reports exactly the path from there, closed up; the search invariant holds either way |
| ColourSearch.Search.Run | internal/compiler/check/class.go:362-370 | starting from every white node in any order finds a cycle exactly when there is one; the path left falls into one walk per report, which the report closes; recorded closures are exact and present for every node that leads to no cycle |
| ColourSearch.ReportIff | internal/compiler/check/class.go:313-325 | a report is a cycle if and only if every boundary between left-over parts of the path that it runs across is an edge; the first always is one, and so is one that starts within its own part |
| ColourSearch.FalseReport | internal/compiler/check/class.go:309-330 | with a its own superclass and b below a, visiting a and then b reports a, b, a, which is no cycle |
| ColourSearch.ValidateSuperclassGraph | internal/compiler/check/class.go:290-370 | the verdict is true if and only if the graph is cyclic; every recorded closure is exactly the set of reachable names, every class that leads to no cycle has one, and closures given beforehand are untouched |
| ColourSearch.ValidateAliasGraph | internal/compiler/check/alias.go:16-75 | the same verdict for type aliases |
| ModStore.NewCycle | internal/app/engine/modstore.go:58-82 | a cycle of the extended import graph is an old one or goes through the new module |
| ModStore.ModuleStore.WalkImports | internal/app/engine/modstore.go:61-75 | the walk reports a circle only if there is one, and otherwise nothing reachable lies on one |
| ModStore.ModuleStore.CheckCircularDeps | internal/app/engine/modstore.go:57-82 | registration is refused if and only if it would close an import cycle |
| ModStore.ModuleStore.Add | internal/app/engine/modstore.go:51-82 | check then register keeps the import graph acyclic, the order a list of all modules without repetition, and the name cache correct |
| ModStore.ModuleStore.SortedModuleNames | internal/app/engine/modstore.go:106-117 | the cached list is the sorted list of all registered names |
| Order.LessIff | internal/app/engine/modstore.go:106-117 | names are sorted lexicographically: the smaller one ends first or has the smaller character at the first difference |
| ModStore.PreorderReaches | internal/app/engine/modstore.go:126-144 | the depth-first preorder of the imports enters exactly the modules reachable from them, each once |
| ModStore.OverlaidLast | internal/app/engine/modstore.go:136 | merging fixities in order, the last module that declares an operator decides |
| ModStore.ModuleStore.CollectFixityMap | internal/app/engine/modstore.go:123-145 | the operators collected are exactly those declared by modules reachable from the imports, each with the fixity that the last declaring module in depth-first preorder gives it |
| TokBuf.TokenBuffer.At | internal/compiler/parse/tokbuf.go:40-64 | a token at or after the buffer's base is the one of the stream, end of file past its end, and no more is scanned than that needs |
| TokBuf.TokenBuffer.Advance | internal/compiler/parse/tokbuf.go:77-89 | one token is consumed, never the end of file, and the previous token is the one consumed |
| TokBuf.TokenBuffer.MaybeCompact | internal/compiler/parse/tokbuf.go:147-163 | compaction keeps every token at or after any mark or the previous position |
| TokBuf.TokenBuffer.Restore | internal/compiler/parse/tokbuf.go:112-116 | restoring lands on a position that is still buffered |
| TokBuf.TokenBuffer.ScanForward | internal/compiler/parse/tokbuf.go:131-142 | lookahead succeeds if and only if some token within the limit stops the predicate with true, nothing before it stopping or ending the stream |
| TokBuf.RunAll | internal/compiler/parse/tokbuf.go:40-163 | every balanced run of operations shows exactly what it shows on the plain token sequence |
| Engine.Engine.ModuleEnvFingerprint | internal/app/engine/runtimecache.go:91-100 | the fingerprint handed out is that of the current state, memoised or not |
| Engine.Engine.RuntimeFingerprint | internal/app/engine/runtimecache.go:102-117 | the same for the runtime fingerprint, which is built on the module fingerprint |
| Engine.ModuleSectionIff | internal/app/engine/runtimecache.go:119-149 | two states write the same module section if and only if types, assumptions, bindings, gates and limits agree and the same modules are registered from the same sources |
| Engine.RuntimeSectionIff | internal/app/engine/runtimecache.go:155-192 | two states write the same runtime section if and only if limits, recursion, effective entry point, flags and registration counter agree, and the same primitives are registered, each with the same key or, without keys, the same function |
| Engine.ValidNameIff | internal/app/engine/engine.go:402-421 | a module name is accepted exactly when it is a dotted sequence of segments of letters, digits and underscores that each start with a capital |
| Engine.Engine.RegisterPrim | internal/app/engine/engine.go:180-184 | runtime-only changes leave the module fingerprint valid |
| Engine.Engine.RegisterModule | internal/app/engine/engine.go:429-444 | success, failure and panic all leave valid flags truthful; the fingerprint used for compilation is that of the state without the new module |
| Engine.Engine.RegisterModuleRec | internal/app/engine/engine.go:264-276 | the gates are back as they were, the fingerprint used saw them open, and both memos are stale afterwards |
| Engine.RunThenAsk | internal/app/engine/engine.go:162-345 | after any run of mutators the fingerprints are those of the state the operations add up to |
| TypeMatch.MatchConcretePattern | internal/compiler/check/grade.go:162-186 | matching succeeds if and only if some agreeing assignment makes the pattern an instance, and finds the least such |
| TypeMatch.MatchSound | internal/compiler/check/grade.go:162-209 | substituting a match into a wildcard-free pattern gives the argument up to levels and grade flags |
| TypeMatch.MatchComplete | internal/compiler/check/grade.go:162-209 | any assignment that turns the pattern into the argument is a match |
| TypeMatch.EqualIff | internal/lang/types/equal.go:21-64 | on variables, constructors and applications, types are equal exactly when they are the same up to grade flags |
| TypeMatch.SubstAt | internal/compiler/check/grade.go:188-209 | at every place of a type, an assigned variable becomes what it is assigned, and everything else stays as it is, levels and grade flags included |
| TypeMatch.ReductUnique | internal/compiler/check/grade.go:125-143 | the reduct does not depend on which matching assignment is used |
| TypeMatch.ReduceConcreteEqs | internal/compiler/check/grade.go:125-143 | the right-hand side of the first equation that applies, and nothing if and only if none does |
| TypingContext.PositionsAre | internal/compiler/check/context.go:21-26 | an index entry lists exactly the ascending positions of its key |
| TypingContext.DroppedOk | internal/compiler/check/context.go:50-82 | the last position of the popped entry's key is the popped position, and dropping it keeps the index exact |
| TypingContext.Context.Push | internal/compiler/check/context.go:36-48 | pushing keeps all three indexes exact |
| TypingContext.Context.Pop | internal/compiler/check/context.go:50-82 | popping undoes the last push, keeps the indexes exact, and its three panics cannot happen |
| TypingContext.Context.LookupVarFull | internal/compiler/check/context.go:84-99 | lookup by name equals a newest-first scan |
| TypingContext.Context.LookupTyVar | internal/compiler/check/context.go:101-108 | the newest type variable of that name |
| TypingContext.Context.LookupEvidence | internal/compiler/check/context.go:122-133 | all evidence of a class in the order of a newest-first scan |
| TypingContext.Context.LookupDictVar | internal/compiler/check/context.go:148-161 | the same for dictionary variables, without those the solver may not see |
| TypingContext.Context.DictVarClasses | internal/compiler/check/context.go:136-144 | exactly the classes for which a dictionary variable is in scope |
| Hover.Builder.Finalize | internal/app/engine/hoverindex.go:157-192 | the index is a stable sorted permutation of the recorded entries with pending documentation filled in |
| Hover.BuildIndex | internal/app/engine/hoverindex.go:116-192 | after any run of records and attached notes the index holds the entries kept, each expression that lacks a text given the latest one attached to its start, in stable order |
| Hover.SortStable | internal/app/engine/hoverindex.go:179-184 | by start, then by length, equal entries in the order recorded |
| Hover.EntryAt | internal/app/engine/hoverindex.go:239-257 | nothing if and only if no entry contains the offset, else a shortest containing one, the last of those in the order, in spite of the early break |

## Left out

- The VM and bytecode compiler: the evaluator follows the order in which the bytecode evaluates, on closed terms with substitution instead of environments and closures.
- Effects: a saturated effectful primitive is a value that the evaluator never runs, so nothing is claimed about programs whose bind runs one; primitives take and return first-order data only.
- Automatic forcing of recursive thunks at a bind, and the runtime's refusal of a fixed point whose body is neither a function nor a thunk: the evaluator unrolls every fixed point.
- OptimizerRight.OptimizeRight: it asks that every firing of the known-scrutinee rewrites along the run meets its guard, since outside the guards the rewrites are wrong; `Tidy.OptimizeTidy` has a condition on the input instead. That one leaves to the guards a binding that both matches a constructor and passes it on without all its arguments.
- ProgramRight.OptimizeProgramRight: bindings have names of their own.
- Optimizer.OptimizeProgram: `inlineRule` is not among the rules put in front.
- Simulate.Sim: for whole runs one direction only, because the converse is false (`KnownLimits.DropsFailingArgument`); single rewrites have their exact conditions. Results that are functions or thunks are related, not equal.
- Label patterns with payload variables: substitution under them is characterized (`SubstLimits.PayloadRightIff`), but the rewrites are proved for programs without them.
- `inlineRule` and the fusion rules registered by packs: any rule that is sound in the sense of `SoundRule` may be registered in the model, but these are not shown to be.
- ProgramSorted.OptimizeProgramSorted: imported dictionaries may not mention a name that the program binds, since the sort compares bare names, and registered rules may not mention new globals.
- DictRules.CaseOfKnownDictRight: the code does not track scope, so that no binder hides a name of the dictionary is a premise; a dictionary is inlined as it was registered, and rewriting it in place afterwards is not modelled.
- In-place mutation and sharing of Core nodes during a pass: nodes are values here, so aliasing is not captured.
- The depth limit of the `ir` traversals and the overflow result of the free-variable traversal, context cancellation, spans, the `Generated` marks inside terms, the `IsDict` mark, and the 64-bit range of the fresh-name counter.
- Literals are compared mathematically; Go's floating-point comparison of NaN is not modelled.
- Index assignment resolves a qualified variable by its bare name (`internal/lang/ir/index.go`), unlike substitution; the model follows substitution.
- TypeMeaning.TyAppBetaMeans: term substitution below a type abstraction does not look at types, so type variables of a replacement may be captured there; only erased meaning is claimed for those rewrites.
- DictUse.DictResolved: no registered rules, since a rule may rewrite the case or the variable first.
- Fires.FiresIff: the size bound counts all nodes; that the traversal gives up at its depth limit and then counts as too big is not modelled.
- Types are variables, constructors, applications and arrows only; quantified types and rows are opaque.
- ModStore.ModuleStore.Add: a module found in the module cache is registered without the cycle check; the model always checks.
- Engine.Engine.RegisterModule: compilation is a parameter, and equality of cached and cold compilation is not claimed, since the module cache key omits the module name. The digest is any function of the sections written; injectivity is not claimed. Setters of single limits and flags are merged into one setter per group.
- TokBuf.TokenBuffer.Advance: the previous token is claimed only directly after an advance, because restoring does not roll it back; the scanner is a finite token sequence.
- TypeMatch.MatchConcretePattern: types other than variables, constructors and applications are opaque and compared as such.
- Hover.SortStable: the sort is modelled by insertion; overflow of the comparison on positions is not modelled.
- The unifier, constraint solver, type family reducer, bidirectional checking, elaboration, scanner, recursive-descent parser, LSP server, CLI and value conversion.
