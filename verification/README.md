# Verified model of the Ori toolchain's core

A Dafny model of nine pieces of the Ori toolchain, and proofs of what they are for. Check
it with `dafny verify dfyconfig.toml`.

**The generic pass** (`Hir`, `TypeInference`, `CallInference`, `MonoNames`, `Monomorph`,
`MonoModule`, `HirEval`, `MonoMeaning`, `MonoSimulation`, `MonoTheorem`, `MonoSignatures`,
`MonoTyping`, `MonoConcrete`, `MonoCallees`, `MonoBound`, `MonoSpelling`, `MonoDistinct`,
`MonoPlain`, `MonoLimits`, `MonoExample`). Monomorphization replaces templates by one concrete
copy per list of type arguments. `Monomorph.MonoState` is the pass with its memo table and its output, filled
recursively; `MonoModule` is the run over a module. `HirEval` is an independent reference: an
evaluator that knows no instances and runs templates under type arguments.
`MonoTheorem.MeaningPreserved` says both agree on every call, fuel for fuel. Its hypotheses
are that the arguments of each generic call determine the type arguments, that locals hide
neither templates nor instances, and that instance names are distinct. They hold of code as
lowering leaves it, where a generic call still bears the template's own types. `MonoPlain`
derives distinct names from what types reach generic calls, by reading types back from their
spelling in names (`MonoSpelling`), and `MonoBound` derives termination from how calls pass
type parameters on. `MonoSignatures` and `MonoTyping` say what types the output bears: calls
are typed by the functions they now call, and annotations that agreed still do.

**The lockfile** (`Lockfile`, `LockRoundTrip`, `LockGrammar`): writer, line parser and the three
quoting automata between them, exactly which locks survive the round trip, and exactly which
texts are lockfiles, by a grammar of files, lines and values.

**Dependency resolution** (`Resolve`, `ResolvedEntries`, `LockValidation`): the depth-first walk
over a possibly cyclic graph, what it locks, what each entry says and by which chain of
dependencies it is there, and exactly when the lock it writes validates.

**The package cache** (`CachePublish`): concurrent publication, one file operation per step,
any number of publishers, sources that change and publishers that stop anywhere.

**The registry** (`VersionsIndex`, `GlobalIndex`, `RegistryPublish`): version order, the two
index files with their parsers, and publication under a lock file.

**The tree digest** (`TreeDigest`, `TreeWalk`): the framed byte stream that is hashed, down from
trees, and which files of a tree go into it.

**The debugger** (`DebugValues`, `DebugParser`, `DebugGrammar`, `DebugLexer`, `DebugMeaning`,
`DebugSpelling`, `EventSplit`): an expression evaluator that evaluates while it parses, against
trees and their values, with what operators mean and how tokens are spelled said independently;
and the splitting of its event stream.

**The front end** (`PatternParser`, `PatternGrammar`, `PatternRecovery`, `LexPreflight`,
`LineIndex`, `LinePositions`): the pattern parser against a grammar of concrete trees, the two
preflight scanners against a lexical grammar, and the line index.

**Embedding and builds** (`EmbedHandles`, `InstallSwap`, `Features`): handle accounting of the
C interface under interleaved releases, the install swap with its rollback, and the feature
list in the build fingerprint.

`Wrappers`, `Text` and `Sorting` hold what the others share.

## Where the code does less than it promises

Each point is a lemma, with the exact condition where the promise can be met.

- Instance names are not injective: two calls of one template can ask for two instances of
  one name (`MonoExample.NamesCollide`). For plain types, built of one-word scalars, named
  and built-in formers and one-word constants, names are equal exactly when the keys differ
  at most in the case of constant names (`MonoDistinct.PlainNamesCollideExactly`); so names
  are distinct in every module whose generic calls take such types and whose constants are
  named apart (`MonoPlain.PlainModuleHasDistinctNames`).
- The pass does not look under `buffer`, `slice`, `array`, SIMD and handle types: a parameter
  is left over exactly when it stands there (`MonoLimits.HiddenParamSurvives`,
  `HiddenParamEscapes`).
- A template that calls a template with more type parameters is never instantiated, because
  the callee's own annotation counts as a leftover parameter (`AcceptedExactlyWhenCovered`,
  `WiderCalleeIsRefused`).
- Polymorphic recursion makes the pass run forever (`PolymorphicRecursionHasNoBound`); it
  stops when calls pass on only closed types and the caller's own parameters
  (`MonoBound.FlatModuleIsBounded`).
- Two directories with one name and version can lose dependencies
  (`LockValidation.TwinIsNotLocked`); the lock is complete exactly when the direct
  dependencies of such twins are locked (`Resolve.LockIsReach`), as they are when twins ask
  for the same (`AlikeTwinsLoseNothing`).
- A publisher can report an incomplete target although the entry there is complete: exactly
  when another publisher's rename falls between its two looks (`CachePublish.SpuriousConflict`,
  `IncompleteTargetExactly`), never when it alone has that target. One that wins by its rename
  has not compared what it staged with the manifest it read first, and may publish another
  package (`RenameMayPublishAnother`); one that finds its target taken does compare
  (`CheckedEntriesDeclareTheSource`).
- A backslash in a file name makes different trees hash alike (`TreeDigest.BackslashCollides`):
  a tree with plain names shares its stream with one of other files exactly when it has a file
  in a subdirectory (`TwinExactly`). The digest depends on the order of the walk exactly when
  two files of one normalized path differ (`WalkOrderIsIrrelevant`).
- Version parts of 2^64 and more count as zero (`VersionsIndex.OverflowSortsLow`,
  `TripleIsSpelled`).
- Taking over a stale registry lock is not atomic: two publishers can be inside at once
  exactly when two are alive, a late holder included (`RegistryPublish.TheftIsNotAtomic`). A
  version whose publisher stops between placing and listing is never listed
  (`OrphanIsNeverListed`), and one whose publisher stops before the global index never gets
  there (`UnindexedStaysOut`).
- A context that refuses destruction because a callback runs may have lost others: exactly
  when one is idle and one is running (`EmbedHandles.BusyDestroyLosesCallbacks`).
- Rolling back an install leaves behind exactly the entries that were new and already placed
  (`InstallSwap.NewEntriesStay`); it is complete exactly when all placed ones replaced old
  ones (`RollbackIsComplete`).

## Model

| member | source | states |
|---|---|---|
| `TypeInference.InferSubstitution` | compiler/crates/ori-hir/src/monomorph.rs:183-247 | matching a template type against an actual type in place computes the map the specification function gives: first binding wins, errors, inference variables and parameters bind nothing, mismatched formers are skipped |
| `TypeInference.InferTyInverts` | compiler/crates/ori-hir/src/monomorph.rs:183-247 | matching a type against its own closed instance learns exactly the bindings of the parameters that occur in it, on top of what was known |
| `TypeInference.SubstCompose` | compiler/crates/ori-hir/src/monomorph.rs:743-785 | substituting twice is substituting the composition, for every type whose parameters are covered |
| `TypeInference.SubstAgree` | compiler/crates/ori-hir/src/monomorph.rs:743-785 | substitutions that agree on the parameters of a type give the same type |
| `CallInference.FillSlots` | compiler/crates/ori-hir/src/monomorph.rs:119-150 | the slot-filling loop, labels and positional cursor included, computes the placement |
| `CallInference.PlaceMeets` | compiler/crates/ori-hir/src/monomorph.rs:119-150 | the placement meets the calling convention stated without a loop: a label goes to the parameter of its name, a positional argument to the first slot left, what finds no slot is an extra |
| `CallInference.PlacementUnique` | compiler/crates/ori-hir/src/monomorph.rs:119-150 | the convention leaves one placement only, so the order of arguments matters no further than it says |
| `CallInference.BranchesAgree` | compiler/crates/ori-hir/src/monomorph.rs:107-173 | the branch for unlabelled calls and the branch for labelled ones match the same arguments to the same parameters when nothing is labelled and a variadic parameter comes last |
| `CallInference.InferCallSubstitutions` | compiler/crates/ori-hir/src/monomorph.rs:102-173 | the whole inference, both branches and the variadic tail, computes the map of the specification |
| `CallInference.InferenceInverts` | compiler/crates/ori-hir/src/monomorph.rs:102-247 | if the argument types are the parameter types under a closed substitution, inference returns that substitution on every parameter that occurs, and it gives the argument types back |
| `MonoNames.KeyKeepsSubst` | compiler/crates/ori-hir/src/monomorph.rs:1038-1048 | a memo key keeps the whole substitution, so calls share an instance only if they agree on every type argument |
| `MonoSpelling.SameSpelling` | compiler/crates/ori-hir/src/monomorph.rs:1057-1068 | two plain closed types are spelled alike in names if and only if they differ at most in the case of constant names: argument lists, tuples, functions and named types of any length are read back from the gaps |
| `MonoDistinct.NameIsTemplateAndSuffix` | compiler/crates/ori-hir/src/monomorph.rs:80-80 | two instance names are equal if and only if the templates and the suffixes are, whatever the types |
| `MonoDistinct.PlainNamesCollideExactly` | compiler/crates/ori-hir/src/monomorph.rs:1050-1068 | two keys with plain type arguments share a name if and only if template, parameter indices and types agree up to the case of constant names |
| `MonoPlain.NamesDistinctExactly` | compiler/crates/ori-hir/src/monomorph.rs:1050-1068 | among plain keys names are distinct if and only if no two keys are alike up to case |
| `MonoPlain.PlainModuleHasDistinctNames` | compiler/crates/ori-hir/src/monomorph.rs:58-99 | if generic calls take plain types and no two constants are named alike up to case, all instances the module demands, nested demand included, have distinct names |
| `MonoPlain.PlainMeaningPreserved` | compiler/crates/ori-hir/src/monomorph.rs:24-99 | for such modules meaning is preserved without any hypothesis on names |
| `MonoExample.CallsCollide` | compiler/crates/ori-hir/src/monomorph.rs:58-81 | two calls of the identity template ask for different instances if and only if their argument types differ, and name them alike if and only if the types agree up to case |
| `MonoExample.NamesCollide` | compiler/crates/ori-hir/src/monomorph.rs:1050-1068 | two calls whose argument types label one constant in different case ask for two instances of the same name |
| `MonoBound.FlatModuleIsBounded` | compiler/crates/ori-hir/src/monomorph.rs:58-99 | if every generic call passes closed types from a finite set and the caller's own parameters, the instances the module can demand lie in a finite set closed under demand |
| `Monomorph.MonoState.SpecializeCall` | compiler/crates/ori-hir/src/monomorph.rs:58-99 | resolves a call exactly when inference finds arguments and the instance is free of parameters; then the key is in the memo table, and the table stays consistent: its values are the names of the generated functions, each key generated once |
| `Monomorph.MonoState.Generate` | compiler/crates/ori-hir/src/monomorph.rs:78-92 | inserting the key before rewriting the body and pushing the function after it keeps the table consistent even when the body asks for its own key |
| `Monomorph.MonoState.RewriteExpr` | compiler/crates/ori-hir/src/monomorph.rs:337-459 | rewriting in place gives the specified expression and leaves every instance the expression asks for in the table |
| `Monomorph.MonoState.RewriteBlock` | compiler/crates/ori-hir/src/monomorph.rs:249-324 | the same for blocks and the statements in them |
| `Monomorph.StartKeeps` | compiler/crates/ori-hir/src/monomorph.rs:87-90 | entering a key into the memo table before its function exists keeps the table consistent, with that key pending |
| `Monomorph.FinishKeeps` | compiler/crates/ori-hir/src/monomorph.rs:91-92 | pushing a finished function settles its key and no other |
| `MonoModule.MonomorphizeGenerics` | compiler/crates/ori-hir/src/monomorph.rs:24-55 | the pass returns the output for some order of generation without repetition whose keys are exactly the least set closed under demand from the functions and constants kept; it ends whenever a finite closed set exists |
| `MonoModule.RunPass` | compiler/crates/ori-hir/src/monomorph.rs:37-54 | the loops over functions and constants, the removal of templates and the appending of instances build that output |
| `MonoModule.NoTemplatesNoChange` | compiler/crates/ori-hir/src/monomorph.rs:25-34 | without templates the early return changes nothing: the specified output is the module itself |
| `MonoModule.CoreIsLeast` | compiler/crates/ori-hir/src/monomorph.rs:58-99 | when demand fits in some finite closed set there is a least one |
| `MonoModule.InstanceConcrete` | compiler/crates/ori-hir/src/monomorph.rs:78-92 | a generated function has no generic parameter after its body is rewritten |
| `MonoModule.OutputHasNoTemplates` | compiler/crates/ori-hir/src/monomorph.rs:51-54 | no template survives the pass |
| `MonoConcrete.NoParameterIsLeft` | compiler/crates/ori-hir/src/monomorph.rs:24-54 | after the pass no type parameter is left in any function or constant, kept or generated, although lowering leaves the template's own types on every generic call |
| `MonoCallees.EveryRewrittenCalleeDefined` | compiler/crates/ori-hir/src/monomorph.rs:361-371 | a direct callee in the output was a callee in the source or is a function of the output |
| `MonoMeaning.InferenceFinds` | compiler/crates/ori-hir/src/monomorph.rs:102-173 | inference on rewritten arguments finds the type arguments the call was typed with, composed with those of the surrounding instance |
| `MonoMeaning.CallResolves` | compiler/crates/ori-hir/src/monomorph.rs:58-99 | so the call is resolved to the instance for exactly those type arguments |
| `MonoMeaning.RwKeepsTy` | compiler/crates/ori-hir/src/monomorph.rs:355-371 | rewriting leaves on every expression the type worked out from its arguments |
| `MonoSimulation.SimGenericCall` | compiler/crates/ori-hir/src/monomorph.rs:355-371 | a generic call evaluated under type arguments gives what the rewritten call of the instance gives |
| `MonoSimulation.SimBlock` | compiler/crates/ori-hir/src/monomorph.rs:249-324 | a block evaluated under type arguments gives what the substituted and rewritten block gives |
| `MonoTheorem.MeaningPreserved` | compiler/crates/ori-hir/src/monomorph.rs:24-99 | calling any function of a well-formed module by name, with any values and any fuel, gives the same value, the same failure or the same exhaustion before and after the pass |
| `MonoSignatures.CallsFitTheirFunctions` | compiler/crates/ori-hir/src/monomorph.rs:58-99 | in the output every call of an instance names a function that is there; the callee bears that function's parameter types in their order and then its return type, the call bears the return type, and every argument has the type of the parameter it goes to or, collected unspread by a variadic one, of its elements |
| `MonoTyping.AnnotationsStayAgreed` | compiler/crates/ori-hir/src/monomorph.rs:24-99 | if in a well-formed module variables bear their declared types, `let`, assignment and `return` the types of their values, lists those of their elements and branches that of the whole, with generic calls typed by their arguments, the same holds of every function and constant of the output, read as it stands |
| `MonoTyping.IdentityModuleAgrees` | compiler/crates/ori-hir/src/monomorph.rs:24-99 | that hypothesis holds of the example's module, whose generic call bears a type that is not its own |
| `MonoExample.IdentityModuleIsWellFormed` | compiler/crates/ori-hir/src/monomorph.rs:24-99 | the theorem's hypotheses hold of a module with a template, a call of it and one instance, annotated as lowering leaves it |
| `MonoExample.OneInstance` | compiler/crates/ori-hir/src/monomorph.rs:24-99 | of that module the pass demands exactly the one instance |
| `MonoLimits.AcceptedExactlyWhenCovered` | compiler/crates/ori-hir/src/monomorph.rs:79-85 | an instance is accepted if and only if the inferred arguments cover every parameter in the template's text, annotations of the functions it calls included |
| `MonoLimits.WiderCalleeIsRefused` | compiler/crates/ori-hir/src/monomorph.rs:83-85 | so a template that returns a call of a template with more parameters is refused under every inferred substitution |
| `MonoLimits.HiddenParamSurvives` | compiler/crates/ori-hir/src/monomorph.rs:743-785 | after substituting closed types a parameter remains if and only if it stood under a type former the pass does not descend into |
| `MonoLimits.HiddenParamEscapes` | compiler/crates/ori-hir/src/monomorph.rs:787-791 | an instance with such a parameter left in passes the concreteness check |
| `MonoLimits.PolymorphicRecursionHasNoBound` | compiler/crates/ori-hir/src/monomorph.rs:58-99 | polymorphic recursion demands infinitely many instances: no finite set of keys is closed |
| `Lockfile.ParseStringValue` | compiler/crates/ori-driver/src/package.rs:2115-2143 | the escape automaton computes the specified unquoting, with its three errors |
| `Lockfile.Scan` | compiler/crates/ori-driver/src/package.rs:2010-2054 | the quote-aware loop shared by comment stripping and key splitting finds the first mark outside quotes |
| `Lockfile.WritePackageLock` | compiler/crates/ori-driver/src/package.rs:919-956 | the writer's pushes produce the specified text |
| `Lockfile.StepLine` | compiler/crates/ori-driver/src/package.rs:1014-1075 | one line of the parser, header or dependency table, with every error |
| `Lockfile.ParsePackageLock` | compiler/crates/ori-driver/src/package.rs:1005-1135 | the parser's loop and its final checks compute the specified result |
| `Lockfile.QuoteEscapes` | compiler/crates/ori-driver/src/package.rs:1137-1139 | the two replacements of quoting escape character by character |
| `LockRoundTrip.WrittenLockParses` | compiler/crates/ori-driver/src/package.rs:919-956 | what parsing a written lock gives, for every lock: itself with digests in lower case, a digest error, or some error when a string holds a newline |
| `LockRoundTrip.LockRoundTrips` | compiler/crates/ori-driver/src/package.rs:1005-1139 | parsing the written text gives the lock back if and only if its strings hold no newline and its digests are 64 lower-case hexadecimal digits |
| `LockRoundTrip.OtherFormatsDoNotParse` | compiler/crates/ori-driver/src/package.rs:1070-1075 | a lock written with any format number but 2, or with no format line, is refused for its format |
| `LockGrammar.ParserIsExact` | compiler/crates/ori-driver/src/package.rs:1005-1135 | a text parses to a lock if and only if, blank lines and comments aside, it is a header whose last `format` spells 2 and whose last root and root version are that lock's, followed by tables whose last value for each key is the field of that lock's dependencies, digests in lower case and optional keys absent exactly when their fields are |
| `LockGrammar.OtherFormatsAreRefused` | compiler/crates/ori-driver/src/package.rs:1070-1075 | a file in good order is refused for its format if and only if its last `format` is not 2 or there is none, whatever else it lacks |
| `LockGrammar.LineIsItem` | compiler/crates/ori-driver/src/package.rs:1012-1030 | what a line says, up to the first `#` outside quotations and split at the first `=` outside them, is what the code reads |
| `LockGrammar.FindOutsideIs` | compiler/crates/ori-driver/src/package.rs:2010-2054 | the scanner finds the first mark before which every quotation opened is closed |
| `LockGrammar.UnescapeIs` | compiler/crates/ori-driver/src/package.rs:2115-2143 | unescaping reads a text back if and only if it is written as its characters, each plain or by one of the five escapes |
| `CachePublish.StepKeeps` | compiler/crates/ori-driver/src/package.rs:2442-2526 | every file-system step of every publisher keeps every publisher's account true, adds only complete entries and never changes or removes one |
| `CachePublish.PublicationIsSafe` | compiler/crates/ori-driver/src/package.rs:2442-2526 | in every interleaving, from any cache, an entry never changes once there and what is added is complete; a publisher that reports success finds under its target, then and ever after, a complete entry with its own source identity and the digest it returned, which is the one its lock expects up to letter case |
| `CachePublish.CheckedEntriesDeclareTheSource` | compiler/crates/ori-driver/src/package.rs:2397-2413 | a publisher that succeeds by checking the entry it finds, finds there the manifest it read from its own source; one that reports another package there finds another |
| `CachePublish.FailuresAreTrue` | compiler/crates/ori-driver/src/package.rs:2397-2440 | in every run, damaged entries included, what a failed check says of an entry is so: no manifest, no metadata, another source, a digest that is not the tree's |
| `CachePublish.RenameMayPublishAnother` | compiler/crates/ori-driver/src/package.rs:2448-2508 | a run in which the source changes between its manifest and its digest and the publisher succeeds with another package than it read |
| `CachePublish.WinnersAgree` | compiler/crates/ori-driver/src/package.rs:2397-2526 | two publishers of one target that both succeed agree on source identity and digest |
| `CachePublish.IncompleteTargetExactly` | compiler/crates/ori-driver/src/package.rs:2450-2472 | in every run a publisher reports an incomplete target if and only if, at its second look, the entry lacked a manifest at the first or another publisher's rename put it there in between |
| `CachePublish.SpuriousConflict` | compiler/crates/ori-driver/src/package.rs:2458-2472 | where manifests are never missing, it does so if and only if another publisher's rename fell between its two looks, and the entry it complains of is complete |
| `CachePublish.OwnTargetIsNeverIncomplete` | compiler/crates/ori-driver/src/package.rs:2458-2472 | a publisher that shares its target with no other never reports one |
| `CachePublish.SpuriousConflictHappens` | compiler/crates/ori-driver/src/package.rs:2458-2472 | a run of two publishers with one job in which it happens |
| `Resolve.Resolver.CollectLocked` | compiler/crates/ori-driver/src/package.rs:773-898 | the recursive walk with its two accumulators computes the specified walk and ends on every graph, cyclic ones included |
| `Resolve.ResolvePackageLock` | compiler/crates/ori-driver/src/package.rs:752-771 | the resolved lock: the walk's entries sorted by name and version |
| `Resolve.LockIsReach` | compiler/crates/ori-driver/src/package.rs:752-898 | the lock holds, sorted and each name and version once, only what reachable dependencies resolve to, and all of it if and only if the direct dependencies of packages that share name and version with another are locked |
| `ResolvedEntries.ResolvesToAccount` | compiler/crates/ori-driver/src/package.rs:781-884 | a dependency resolves to an entry and a directory if and only if they account for it field by field: for a version the metadata's source and digest, no path and no revision; for Git the requirement's url, the metadata's digest and what follows the last `#` of its source; for a path its spelling with slashes and the identity and digest of the directory it joins to |
| `ResolvedEntries.EntriesAreAccounted` | compiler/crates/ori-driver/src/package.rs:752-898 | every entry of a resolved lock is so accounted for by a dependency at the end of a chain of dependencies from the root |
| `ResolvedEntries.ReachIsChained` | compiler/crates/ori-driver/src/package.rs:773-898 | the reachable dependencies are exactly those at the end of such a chain |
| `ResolvedEntries.ResolvedLockRoundTrips` | compiler/crates/ori-driver/src/package.rs:752-1139 | if the world hands out digests in lower-case hexadecimal and strings without newlines, writing the resolved lock and parsing it gives it back |
| `Resolve.AlikeTwinsLoseNothing` | compiler/crates/ori-driver/src/package.rs:773-898 | where packages of one name and version have direct dependencies of the same names and versions, the lock covers everything reachable |
| `Resolve.ResolvesExactlyWhen` | compiler/crates/ori-driver/src/package.rs:773-898 | resolution succeeds whenever every reachable dependency resolves, and only then unless it passed over the dependencies of a twin directory |
| `LockValidation.ValidateManifestDependencies` | compiler/crates/ori-driver/src/package.rs:461-507 | succeeds if and only if every requirement meets the first entry of its name; an error names the first that does not, as absent or as no longer matching |
| `LockValidation.ValidateLockedManifest` | compiler/crates/ori-driver/src/package.rs:439-459 | succeeds if and only if the root matches, names are unique and every requirement is met; says which check failed |
| `LockValidation.CoversExactly` | compiler/crates/ori-driver/src/package.rs:461-507 | requirements are met if and only if the first entry of each name is of the right kind, of the version asked for if any, at the path or repository asked for, and for Git at an exact revision |
| `LockValidation.VerdictIsRight` | compiler/crates/ori-driver/src/package.rs:466-503 | a dependency is called absent if and only if no entry bears its name, and no longer matching if and only if the first that does fails it |
| `LockValidation.ResolvedLockValidates` | compiler/crates/ori-driver/src/package.rs:439-507 | a freshly resolved lock that covers what is reachable validates, for the root and every package it reaches, if and only if each name has one requirement and resolves to one version; where each name does, it validates if and only if it covers what is reachable |
| `LockValidation.TwinIsNotLocked` | compiler/crates/ori-driver/src/package.rs:886-895 | two directories with the same name and version: what only the second depends on is reachable and is not locked |
| `DebugParser.EvaluateDebugTokens` | compiler/crates/ori-driver/src/debugger.rs:805-827 | the six mutually recursive methods on a token cursor compute the specified precedence parse |
| `DebugGrammar.PrintedTreeEvaluates` | compiler/crates/ori-driver/src/debugger.rs:952-1094 | for every expression tree that respects precedence and left association the parser consumes all its tokens and returns the tree's value, or its error |
| `DebugGrammar.ParserIsAdequate` | compiler/crates/ori-driver/src/debugger.rs:952-1094 | the parser returns a value if and only if the tokens print a tree with that value |
| `DebugGrammar.MinimalPrintEvaluates` | compiler/crates/ori-driver/src/debugger.rs:966-1094 | any tree without parentheses, printed with them only where needed, evaluates to its value |
| `DebugGrammar.MinimalIsShortest` | compiler/crates/ori-driver/src/debugger.rs:966-1094 | no token list that reads as the same tree, whatever its parentheses, is shorter than that print |
| `DebugGrammar.EvalInRange` | compiler/crates/ori-driver/src/debugger.rs:1147-1267 | integers stay within 64 bits through saturation, remainder and negation |
| `DebugMeaning.CombineMeans` | compiler/crates/ori-driver/src/debugger.rs:1140-1267 | an operation has an outcome if and only if it is what the operator means: the 64-bit integer nearest to the sum, difference or product, the remainder with the sign of the dividend, order on integers and on text, truth tables, and every type error; the meaning leaves one outcome only |
| `DebugMeaning.UnaryMeans` | compiler/crates/ori-driver/src/debugger.rs:1036-1048 | negation gives the number that cancels it, `not` the other truth value, and nothing else has either |
| `DebugMeaning.NumberMeans` | compiler/crates/ori-driver/src/debugger.rs:1058-1070 | a numeral without a point comes to the 64-bit integer its digits spell, leading zeros or not, and is an error if and only if they spell none |
| `DebugMeaning.EvalMeans` | compiler/crates/ori-driver/src/debugger.rs:966-1094 | the value or first error of a tree is what its operators mean, from left to right |
| `DebugMeaning.Grouping` | compiler/crates/ori-driver/src/debugger.rs:966-1034 | of two operators side by side the tighter one groups first, and of two alike the left one |
| `DebugMeaning.BeforeIsTotal` | compiler/crates/ori-driver/src/debugger.rs:1173-1181 | of two texts exactly one holds: the first is a proper prefix or smaller where they first differ, they are equal, or the other way round |
| `DebugLexer.TokenizeDebugExpression` | compiler/crates/ori-driver/src/debugger.rs:840-944 | the tokenizer's cursor loop computes the specified tokens, with its errors |
| `DebugLexer.LexUndoesRender` | compiler/crates/ori-driver/src/debugger.rs:840-944 | tokenizing printed tokens gives them back |
| `DebugLexer.TextEvaluates` | compiler/crates/ori-driver/src/debugger.rs:805-944 | a printed expression within the length limit gives the value or the error of its tree, from text to result |
| `DebugLexer.TextIsAdequate` | compiler/crates/ori-driver/src/debugger.rs:805-944 | a text evaluates to a value if and only if it is short enough and its tokens print a tree with that value |
| `DebugSpelling.LexIsExact` | compiler/crates/ori-driver/src/debugger.rs:840-944 | the tokenizer accepts a text if and only if it is blanks and spelled tokens in a row, each as long as it can be, spaces between them or none |
| `DebugSpelling.LexFails` | compiler/crates/ori-driver/src/debugger.rs:840-944 | it refuses a text if and only if somewhere in such a row no token starts, and for the reason that holds there |
| `DebugSpelling.TextMeans` | compiler/crates/ori-driver/src/debugger.rs:805-944 | a text has a value if and only if it is short enough and reads as the print of a tree that means it |
| `DebugSpelling.TextComputes` | compiler/crates/ori-driver/src/debugger.rs:805-944 | a short text that reads as the print of a tree gives what the tree means, value or error, however it is spaced |
| `DebugSpelling.IntegersCompute` | compiler/crates/ori-driver/src/debugger.rs:805-1267 | two integers with any operator between them, however spaced, give from their text what the operator means |
| `DebugLexer.EvaluateDebugExpression` | compiler/crates/ori-driver/src/debugger.rs:805-827 | length check, tokenizer and parser together compute the specified result |
| `DebugValues.CombineInRange` | compiler/crates/ori-driver/src/debugger.rs:1218-1267 | no binary or unary operation leaves the 64-bit range |
| `EventSplit.Bridge.Receive` | compiler/crates/ori-driver/src/debugger.rs:1381-1391 | one read: the pending bytes become the unterminated tail and the events are those of the whole lines, in order |
| `EventSplit.Bridge.ReceiveAll` | compiler/crates/ori-driver/src/debugger.rs:1366-1393 | the loop over reads delivers the events of, and keeps, what the specified feed gives for the sequence of reads |
| `EventSplit.ChunkingIsIrrelevant` | compiler/crates/ori-driver/src/debugger.rs:1366-1393 | however the stream is cut into reads, the lines delivered are those of the whole stream and the pending bytes its unterminated tail |
| `EventSplit.SplitIsFaithful` | compiler/crates/ori-driver/src/debugger.rs:1383-1389 | lines and tail together are the bytes, each line ended by its only newline |
| `PatternParser.Parser.ParsePattern` | compiler/crates/ori-parser/src/parse_pat.rs:13-24 | entering and leaving the nesting bound around alternatives; the depth is restored however parsing ends |
| `PatternParser.Parser.ParsePatternInner` | compiler/crates/ori-parser/src/parse_pat.rs:26-38 | the loop over or-alternatives |
| `PatternParser.Parser.ParsePatternAlternative` | compiler/crates/ori-parser/src/parse_pat.rs:40-80 | the wildcard and the soft keywords before everything else |
| `PatternParser.Parser.ParseByKind` | compiler/crates/ori-parser/src/parse_pat.rs:47-169 | one alternative by its first token, removed syntax and its diagnostics included |
| `PatternParser.Parser.ParseTuple` | compiler/crates/ori-parser/src/parse_pat.rs:106-118 | the tuple loop with its optional trailing comma |
| `PatternParser.Parser.ParseFields` | compiler/crates/ori-parser/src/parse_pat.rs:175-207 | the payload loop: shorthand fields, trailing comma, and recovery after a bad field name |
| `PatternParser.Parser.RecoverVariantPatternField` | compiler/crates/ori-parser/src/parse_pat.rs:223-243 | recovery stops at the first comma or closing parenthesis outside nested ones |
| `PatternParser.Parser.EnterNesting` | compiler/crates/ori-parser/src/parser.rs:60-88 | at the bound nothing is entered and the limit is reported once |
| `PatternGrammar.ParserIsExact` | compiler/crates/ori-parser/src/parse_pat.rs:13-221 | the parser returns a pattern without a diagnostic, leaving given tokens, if and only if the tokens before them are the text of a tree of the grammar with that meaning, within the nesting bound |
| `PatternGrammar.Complete` | compiler/crates/ori-parser/src/parse_pat.rs:13-221 | every tree's text, trailing commas and long or short fields included, parses to its meaning and consumes just its tokens |
| `PatternGrammar.Sound` | compiler/crates/ori-parser/src/parse_pat.rs:13-221 | what parses without a diagnostic is the text of a tree with that meaning |
| `PatternGrammar.PrintedPatternParses` | compiler/crates/ori-parser/src/parse_pat.rs:13-221 | printed canonical patterns parse back to themselves before any token but the or keyword and an opening parenthesis |
| `PatternRecovery.RecoverStops` | compiler/crates/ori-parser/src/parse_pat.rs:223-243 | recovery skips to the first comma or closing parenthesis with as many parentheses closed as opened before it, or to the end, and changes nothing else |
| `PatternRecovery.RemovedSpellingMeans` | compiler/crates/ori-parser/src/parse_pat.rs:84-105 | with the removed spelling `success` or `error` a pattern is what it is with `ok` or `err`, and the renaming is reported once |
| `PatternRecovery.LeadingDotMeans` | compiler/crates/ori-parser/src/parse_pat.rs:119-128 | with the removed leading dot a variant is what it is without, and the dot is reported |
| `PatternRecovery.DottedNameIsUnit` | compiler/crates/ori-parser/src/parse_pat.rs:119-128 | a dotted name without a payload is a variant, where the bare name would be a binding |
| `LexPreflight.FindUnclosedBlockComment` | compiler/crates/ori-lexer/src/lexer.rs:118-159 | the first scanner's loop computes the specified position |
| `LexPreflight.FindUnterminatedString` | compiler/crates/ori-lexer/src/lexer.rs:161-211 | the second scanner's loop computes the specified position |
| `LexPreflight.FindQuotedEnd` | compiler/crates/ori-lexer/src/lexer.rs:224-233 | the escape-aware search for a closing quote |
| `LexPreflight.FirstPreflightDiagnostic` | compiler/crates/ori-lexer/src/lexer.rs:107-116 | the report that starts first |
| `LexPreflight.Lockstep` | compiler/crates/ori-lexer/src/lexer.rs:118-211 | the two scanners advance together to the first unclosed construct and only one of them reports |
| `LexPreflight.EndOfIsPiece` | compiler/crates/ori-lexer/src/lexer.rs:213-243 | the code finds an end exactly where the lexical grammar closes the construct |
| `LexPreflight.PreflightIsGrammar` | compiler/crates/ori-lexer/src/lexer.rs:107-243 | the preflight reports the first construct the grammar leaves unclosed, as what it is, and nothing if and only if the file is a chain of closed constructs |
| `LexPreflight.PrefixIsClean` | compiler/crates/ori-lexer/src/lexer.rs:36-55 | run again on what precedes the reported construct it reports nothing |
| `EmbedHandles.StepKeeps` | compiler/crates/ori-embed/src/c_api.rs:177-234 | every atomic step, halves of a release included, keeps the accounts |
| `EmbedHandles.HandleAccounting` | compiler/crates/ori-embed/src/c_api.rs:177-234 | in every reachable state a context's counter is the number of its live and half-released handles and a type's that of its values, so no counter underflows |
| `EmbedHandles.DestroyNeedsNoHandles` | compiler/crates/ori-embed/src/c_api.rs:1228-1257 | destruction gets under way if and only if no handle is live or half released, and changes nothing otherwise |
| `EmbedHandles.DestroyedHasNoHandles` | compiler/crates/ori-embed/src/c_api.rs:1228-1257 | of a destroyed context no handle is left to use or release |
| `EmbedHandles.TypeReleaseNeedsNoValues` | compiler/crates/ori-embed/src/c_api.rs:1098-1116 | a type is busy if and only if it has values |
| `EmbedHandles.ReleasedTypeHasNoValues` | compiler/crates/ori-embed/src/c_api.rs:1098-1158 | a released type never has a value again |
| `EmbedHandles.PayloadNeedsExactType` | compiler/crates/ori-embed/src/c_api.rs:1166-1192 | a payload is handed out if and only if the caller names the value's context and its very type |
| `EmbedHandles.PayloadIsKept` | compiler/crates/ori-embed/src/c_api.rs:1125-1192 | to the end of any run a value has the payload and the type it was created with |
| `EmbedHandles.RefusalRemoves` | compiler/crates/ori-embed/src/c_api.rs:1240-1252 | an attempt at destruction is refused if and only if it comes to a running callback after idle ones, and then exactly those idle ones are gone |
| `EmbedHandles.BusyDestroyLosesCallbacks` | compiler/crates/ori-embed/src/c_api.rs:1240-1252 | some refused attempt changes the state if and only if one callback is idle and one running; some attempt is refused if and only if one is running |
| `EmbedHandles.BusyDestroyHappens` | compiler/crates/ori-embed/src/c_api.rs:1228-1257 | callers reach a state with an idle and a running callback and no outstanding handle |
| `TreeDigest.Walker.CollectInto` | compiler/crates/ori-driver/src/package.rs:2270-2324 | the recursive directory walk pushes the files of the tree, skips what is ignored and refuses symbolic links |
| `TreeWalk.WalkFinds` | compiler/crates/ori-driver/src/package.rs:2270-2324 | the walk finds exactly the files at the end of a path of names none of which is passed over, each under that path with slashes, and fails if and only if a symbolic link lies at the end of one |
| `TreeDigest.WriteStream` | compiler/crates/ori-driver/src/package.rs:2328-2364 | the loop over sorted files feeds the specified stream to the hash |
| `TreeDigest.StreamInjective` | compiler/crates/ori-driver/src/package.rs:2327-2365 | equal streams come from the same paths and contents |
| `TreeDigest.WalkOrderIsIrrelevant` | compiler/crates/ori-driver/src/package.rs:2326-2327 | the stream is independent of the order of the walk if and only if no path is held by two files with different contents |
| `TreeDigest.SameStreamSameFiles` | compiler/crates/ori-driver/src/package.rs:2326-2365 | files with one content per normalized path have the stream of any others if and only if they are the same up to order |
| `TreeDigest.TreesHaveSameStream` | compiler/crates/ori-driver/src/package.rs:2267-2365 | trees whose names hold no separator have the same stream if and only if they have the same files at the same paths |
| `TreeDigest.BackslashCollides` | compiler/crates/ori-driver/src/package.rs:2320 | two different trees, one with a backslash in a name, yield the same list of files |
| `TreeDigest.TwinExactly` | compiler/crates/ori-driver/src/package.rs:2267-2365 | a tree with plain names has the stream of some tree that a file system can hold and that has other files, if and only if it has a file in a subdirectory |
| `VersionsIndex.AddVersionKeeps` | compiler/crates/ori-driver/src/package.rs:3478-3481 | adding a version keeps the list sorted and free of duplicates and leaves a greatest version last |
| `VersionsIndex.VersionsCompareAsSpelled` | compiler/crates/ori-driver/src/package.rs:3764-3773 | versions whose parts fit 64 bits are in order if and only if the numbers they spell are equal or the first to differ is smaller |
| `VersionsIndex.TripleIsSpelled` | compiler/crates/ori-driver/src/package.rs:3764-3773 | the parts are read as spelled if and only if they fit 64 bits |
| `VersionsIndex.OverflowSortsLow` | compiler/crates/ori-driver/src/package.rs:3764-3773 | a version whose major part overflows sorts below smaller ones |
| `VersionsIndex.ParseVersionsJson` | compiler/crates/ori-driver/src/package.rs:3642-3660 | the versions parser's loop, with its errors |
| `VersionsIndex.PrintedVersionsParse` | compiler/crates/ori-driver/src/package.rs:3453-3491 | parsing a printed versions file gives the versions back |
| `GlobalIndex.ParseGlobalIndex` | compiler/crates/ori-driver/src/package.rs:3662-3740 | the brace scan and the entry loop of the global index parser |
| `GlobalIndex.WriteIndex` | compiler/crates/ori-driver/src/package.rs:3514-3533 | the text written is a function of the index alone: names come sorted |
| `GlobalIndex.UpdateGlobalIndex` | compiler/crates/ori-driver/src/package.rs:3493-3534 | reads, adds one version to one package and writes |
| `GlobalIndex.PrintedIndexParses` | compiler/crates/ori-driver/src/package.rs:3514-3740 | parsing a printed index gives the index back, in whatever order names were printed |
| `RegistryPublish.StepKeeps` | compiler/crates/ori-driver/src/package.rs:3160-3225 | every step of every publisher keeps the lock exclusive and both indexes faithful, while no lock is stale |
| `RegistryPublish.LockExcludes` | compiler/crates/ori-driver/src/package.rs:3589-3640 | while no lock outlives the limit at most one publisher is between taking and releasing it |
| `RegistryPublish.IndexesLoseNothing` | compiler/crates/ori-driver/src/package.rs:3453-3534 | over any interleaving the versions file and the global index hold, sorted and once, exactly the versions whose update went through, a greatest one last |
| `RegistryPublish.PlacedIsListed` | compiler/crates/ori-driver/src/package.rs:3165-3220 | whatever is placed is listed, unless its publisher is at it or stopped in between |
| `RegistryPublish.OrphanIsNeverListed` | compiler/crates/ori-driver/src/package.rs:3166-3177 | a version whose publisher stopped between placing and listing is never listed, however often publication is retried |
| `RegistryPublish.UnindexedStaysOut` | compiler/crates/ori-driver/src/package.rs:3166-3220 | a placed version that no publisher is about to put into the global index never gets there, however often publication is retried |
| `RegistryPublish.TheftIsNotAtomic` | compiler/crates/ori-driver/src/package.rs:3609-3620 | from a stale lock two publishers can end up inside at once, without any lock growing older, if and only if two are alive, waiting or inside |
| `InstallSwap.Installation.SwapPackageEntries` | compiler/crates/ori-driver/src/update.rs:368-399 | the swap loop on the three directories computes the specified outcome |
| `InstallSwap.Installation.RestoreSwappedEntries` | compiler/crates/ori-driver/src/update.rs:401-407 | restoration in reverse order computes the specified directories |
| `InstallSwap.SwapIsTransactional` | compiler/crates/ori-driver/src/update.rs:364-407 | the swap succeeds if and only if no rename it needs is refused, and then package entries are fresh and others untouched; otherwise every old entry is back or kept in the backup where its own restore failed |
| `InstallSwap.NewEntriesStay` | compiler/crates/ori-driver/src/update.rs:379-399 | an entry the install had not is there afterwards if and only if it was placed before any refused rename, with the package's contents, whatever failed |
| `InstallSwap.RollbackIsComplete` | compiler/crates/ori-driver/src/update.rs:364-407 | a failed swap whose restoring renames succeed leaves the install as it was if and only if every entry placed before the failure replaced an old one |
| `InstallSwap.KnownEntriesRollBack` | compiler/crates/ori-driver/src/update.rs:364-407 | so a package that brings no new top-level entry is rolled back in full |
| `Features.NormalizeFeatureList` | compiler/crates/ori-driver/src/incremental.rs:560-568 | splitting, trimming, filtering, sorting and deduplicating compute the specified text |
| `Features.SameTextSameFeatures` | compiler/crates/ori-driver/src/incremental.rs:548-569 | two feature lists normalize to the same text if and only if they name the same set of trimmed, non-empty features |
| `Features.NormalizeIsIdempotent` | compiler/crates/ori-driver/src/incremental.rs:548-569 | normalizing keeps the features, and a second time changes nothing |
| `Features.NormalizeValueIsIdempotent` | compiler/crates/ori-driver/src/incremental.rs:548-569 | the normalization of every fingerprinted variable is idempotent |
| `LineIndex.SourceFile.LineCol` | compiler/crates/ori-diagnostics/src/source.rs:42-52 | the lookup in the table of line starts returns one plus the newlines before the offset and one plus the characters since the last of them, without a slice out of range |
| `LineIndex.FindPreviousBoundary` | compiler/crates/ori-diagnostics/src/source.rs:69-74 | the loop finds the last character boundary at or before the offset |
| `LineIndex.StartFound` | compiler/crates/ori-diagnostics/src/source.rs:19-34 | the table, looked up at an offset, gives as many starts as newlines and the start of the offset's line |
| `LineIndex.PositionsIncrease` | compiler/crates/ori-diagnostics/src/source.rs:42-52 | on character boundaries later offsets have strictly later positions, so no two share one |
| `LineIndex.PositionRoundsDown` | compiler/crates/ori-diagnostics/src/source.rs:42-74 | inside a character and past the end the position is that of the boundary before |
| `LinePositions.CharacterPosition` | compiler/crates/ori-diagnostics/src/source.rs:42-52 | for a file given as characters, in UTF-8, the position of the `k`th is one plus the newlines before it and one plus the characters since the last of them, counted in the characters themselves |

## Left out

The generic pass:

- MonoTheorem.MeaningPreserved: closures, method calls, type tests, patterns, fields, tuples, indexing, ranges, maps and the statements `using`, `for`, `match`, `loop`, `repeat`, `if some`, `while some` and `check` are not in the model; the pass treats them by the same recursion.
- MonoModule.MonomorphizeGenerics: the code is a tree of values here, so rewriting in place becomes returning the rewritten tree; a finite closed set of keys is a ghost parameter, without which the source does not end, and `MonoBound.FlatModuleIsBounded` gives one.
- MonoPlain.PlainModuleHasDistinctNames: opaque types, atomics and error types with two-word names, constants whose names have several words, and the types the pass does not look into are outside the class; distinctness is then a hypothesis.
- Default values and contracts of parameters are not modelled.
- A template used as a value, not called, is stuck in the reference evaluator; the pass leaves it dangling.
- Type formers of one shape are one constructor with a head; `MonoNames` keeps their display names.

Packages:

- LockGrammar.ParserIsExact: which error a text that is no lockfile meets first is given by `Lockfile.StepLine` only, the format error apart.
- LockRoundTrip.LockRoundTrips: errors carry no line numbers or paths; replacing the lock file atomically is not modelled.
- Resolve.LockIsReach: the cache, the network, Git and the hash of a tree are fields of a world that does not change during the walk.
- LockValidation.ResolvedLockValidates: assumes the cache hands out the package it was asked for, as its own checks ensure.
- CachePublish.PublicationIsSafe: nobody but publishers touches the cache during a run; copying errors are one failure; the temporary directory is private to its publisher; the Windows branches are not modelled.
- TreeDigest.TreesHaveSameStream: SHA-256 itself is not modelled, nor are names that are not UTF-8; file contents do not change while they are read.
- RegistryPublish.IndexesLoseNothing: the archive and its checksum file are one step with the package tree; replacing an index file is one atomic step; waiting for the lock is bounded only by giving up.
- RegistryPublish.LockExcludes: holds while no lock is older than the limit; `RegistryPublish.TheftIsNotAtomic` says what can happen otherwise.
- GlobalIndex.PrintedIndexParses: names and versions hold no quotes, braces, brackets, commas or white space, which validation ensures.
- The HTTP registry is not modelled.

The debugger:

- DebugSpelling.LexIsExact: the host's string decoder refuses whatever is not one whole literal.
- DebugMeaning.CombineMeans: arithmetic and comparison of floats are the host's; which operation is asked for, with which operands, is not.
- DebugLexer.TextEvaluates: floats, decoding of string literals and variable lookup are functions of a host record; text is bytes held as characters.
- DebugGrammar.EvalInRange: negating the smallest integer and taking its remainder by minus one are a separate crash outcome, as the source panics there in checked builds.
- EventSplit.Bridge.Receive: decoding an event is a function; the socket and its timing are not modelled.

The front end:

- PatternGrammar.ParserIsExact: spans are dropped; a literal is one token; the expression parser that reads the operand of a minus sign is a function of the tokens, the nesting depth and whether the bound was reported.
- LexPreflight.PreflightIsGrammar: the token automaton behind the preflight is not modelled.
- LineIndex.SourceFile.LineCol: contents of 4 GiB and more, whose offsets no 32-bit number holds, are excluded from the lookup; the text of a line and the cache of files are not modelled.

Embedding and builds:

- EmbedHandles.HandleAccounting: pointers are live when passed and creation, release of types and destruction stay on the owner thread, as the interface demands; calls, compilation and unwinding are not modelled, so a callback starts and stops running as a free action; one that runs while no handle is outstanding presumes an invocation off the owner's path.
- InstallSwap.SwapIsTransactional: download, checksum and extraction are not modelled; deleting what is in the way of a restored entry succeeds, or else its rename counts as refused.
- Features.SameTextSameFeatures: the rest of the build fingerprint frames paths without their lengths and is not claimed to be injective.
- Dependency roots and changed modules of incremental builds would add only membership loops.
