# Nickel, modelled in Dafny

A model of four parts of the Nickel implementation, with proofs of what they promise.

**Contracts of static types** (`core/src/typ.rs`). A type annotation on a statically typed term is
first *simplified*, which drops the checks that typing makes redundant, and then *elaborated* into a
contract.
`Types`, `Simplify`, `FreshTails` and `Elaborate` are the syntax and the two passes; `Blame` says what
the contract of a type does to a value, following the builtin contracts of
`core/stdlib/internals.ncl` and the operations they use in `core/src/eval/operation.rs`; `Hazards`
says, for a type and a value, where the simplified contract does less. `Agreement`,
`BlamePreservation`, `StaticContract`, `NormalForms`, `ElaborationOutcome`, `ElaborationMeaning`,
`SealingKeys` and `SealingPairs` hold the proofs; `BlameSides` says what contracts check without running
them, and `SimpleAnnotations` what is left of that check. `ContractGeneration` has the passes as the
program runs them, on a shared environment and a shared key counter.

**Import caches** (`core/src/cache.rs`). `TermCache`, `CacheHub`, `ImportData` and `SourceCache` are
the state machines over a possibly cyclic import graph; `RelativePath` is path normalisation.

**Layered environments** (`parser/src/environment.rs`). `ReferenceCounts` and `LayeredEnvironment`
are a heap of layers with owner counts, `Environments` the operations, which change a layer in place
only when one handle owns it, and `EnvironmentRuns` compares whole runs with private maps.
`Interner` is the identifier interner with its packed bitmap (`parser/src/identifier.rs`).

**Packages** (`package/src`). `Versions`, `Packages`, `LockFiles`, `LockRoundTrip`, `EntryNames`,
`Snapshots`, `SnapshotTree`, `Snapshotting`, `Reproducibility` and `UpToDate` go from a snapshot of
path and git packages to a resolution, to the lock file, and back; `PackagePaths` says where the paths
of packages lead, and `PathWitnesses` has two small packages on which locking fails. `Ordering` and `Graph` are shared.

## How the outside world appears

- A value is a finite observation: a function is the list of the arguments it received and of the
  results it gave. Contracts embedded in a type are one arbitrary function each; the proofs ask of
  them only that they do not treat a value sealed for the term differently without blaming the term
  (`SealBlind`).
- A run has *events*: `Fail(site, blamed)` for a failed check, and `Escape` where a value or tail sealed
  for the term meets a check that can neither unseal it nor see that it is sealed, or hides fields with
  the names of visible ones. An evaluator may go on after an `Escape`; it marks where a run without the
  seal would not see the same value, so that the two runs cannot be compared. `TermSafe`, the
  hypothesis on the original contract, says that no event blames the term and none is an `Escape`;
  checks of either side may fail and blame the context. Typing is why one expects it, but does not imply
  it: a term may still send a sealed value through a contract annotation of its own. Sealing a tail over
  an earlier seal is no event, whatever fields it hides.
- The events of a run are a set. An equation between events says which kinds of failure are met, not
  how often: a failure announced as lost at one place may still be among the events of the simplified
  contract, because a check on the same side fails at another place and blames the same party.
- Typechecking one file is a function that says which imports it resolves, in order, and whether it
  succeeds; another says which files parse.
  The disk is a map of timestamps, with a text for each path and timestamp.
- For packages, `World` holds the manifests on disk, the commit that fetching each git dependency
  gives, and the directory where commits are checked out. The answer of the version solver is any
  list of versions, with hypotheses where a theorem needs them.
- Iterating over a hash map is picking elements of a set in any order.

## What the proofs found

- A dictionary type `{_ : a}` in negative position, with `a` bound by a removed quantifier, becomes
  `{_ : Dyn}`, whose contract lets a record with a sealed tail pass. The original one maps over the
  record (`core/src/eval/operation.rs:625-649`) and blames the context. So a check on the context is
  lost (`SkippedCheckWitness`).
- A check in positive position that simplification removes may meet a value or a record that is sealed
  for a quantifier of the context; the original contract then blames the context, with the label of the
  seal (`core/src/eval/operation.rs:640-649`), and the simplified one does not look. Well-typed terms get
  there, since a record type with a dynamic tail is subsumed by a dictionary type
  (`core/src/typecheck/subtyping.rs:61-128`). The input is `fun f => f {}`, with the identity for `f`, at
  `(forall r. {; r} -> {; Dyn}) -> {_ : Number}` (`VanishedCheckWitness`). Since a value may also bring
  seals of other contracts, the type alone does not rule this out unless it has no such check in positive
  position; what vanishes is always a check on the side of the term (`BlamePreserved`), and nothing is
  lost if none of those fails (`NoBlameLost`).
- A record passed on to a function with a row quantifier of its own is sealed over without a look at
  the fields that an earlier seal hides. Once simplification has removed the earlier seal they are
  visible, and refused if the quantifier excludes them: the simplified contract blames the term, and
  the original one blames nobody. The typechecker does not rule this out, since it records row
  constraints for unification variables only (`core/src/typecheck/unif.rs:1105`). The input is
  `fun f x => (f x).foo : forall r. (forall s. {; s} -> {foo : Number; s}) -> {; r} -> Number`
  (`NewRefusalWitness`). In the same way a context may be blamed for a record it was given
  (`HandedOverWitness`).
- `$forall_record_tail_excluded_only` (`core/stdlib/internals.ncl:394-411`), the tail contract that
  simplification puts in place of a sealing one, gives back the declared fields alone
  (`DroppedFieldWitness`).
- `SimplifiedContractAgrees` says which events are lost and gained at each place of the type and when
  the value is another, in terms of what a value meets under the original type (`Hazards.Met`).
  `BlamePreserved` is blame preservation for the types that have no such dictionary in negative position
  and no such quantifier.
- A quantifier that stays does not take its variable out of the set of removed variables
  (`core/src/typ.rs:1161-1169`). If it rebinds a removed name, checks on the context are lost
  (`ShadowingWitness`); blame preservation is proved for types without such rebinding.
- A dependency such as `./lib` or `a/../b` in a root manifest is recorded under its normal form in
  the snapshot and looked up as spelled when locking (`package/src/resolve.rs:503`), which then
  panics. Locking works exactly when root paths are spelled in normal form and the index has what is
  asked of it (`LockableExactlyWhen`, with the input in `DotPath`).
- For a requirement with a patch number, such as 1.2.3, the solver may pick 1.5.0, which
  `SemVerPrefix::matches` refuses: the lookup then finds nothing (`ReleasesWithPatch`, `PatchWitness`).
- The up-to-date check keeps no memory of visited packages: on a fresh lock file it comes to an end,
  with the answer yes, exactly when path dependencies have no cycle (`FreshLockIsUpToDate`, with the
  input in `Cycle`). On a stale one it may say no before it gets lost.
- Resolving an import records its edge before the file is parsed (`core/src/cache.rs:2350-2374`). After
  a parse error the edge stays behind without an entry for the file: the cache is coherent exactly when
  every import recorded on the way parses (`TypecheckAll`, with the input in `BrokenImport`).
- Transforming a file takes its entry out of the term cache first (`core/src/cache.rs:95-100`), so a
  file that cannot be transformed loses its entry (`Transform`, with the input in `LostEntry`).
- The comment on `Bitmap::len` (`parser/src/identifier.rs:499-501`) speaks of eight bits for each
  word; the code packs 64, and the model follows the code.

## Model

| member | source | states |
|---|---|---|
| `BlamePreservation.PreservesType` | core/src/typ.rs:1110-1243 | For every type, polarity and value: if the original contract does not blame the term and nothing sealed for the term escapes, the simplified one meets the same events but for those announced as lost or gained, and gives the same value if and only if no other is announced. Checks of either side may fail and blame the context |
| `Hazards.BecomesDynExactly` | core/src/typ.rs:1110-1243 | Which checks in positive position vanish: the syntactic test used to announce them holds if and only if simplification gives `Dyn`, for every type, whatever the state |
| `Hazards.TailBecomesDyn` | core/src/typ.rs:827-926 | The same for record rows: the simplified rows are the dynamic tail alone if and only if every field vanishes and the tail does not stay |
| `Hazards.CasesBecomeDyn` | core/src/typ.rs:470-525 | The same for enum rows, which are elided if and only if every argument vanishes and no variable ends them |
| `Agreement.ShapeAgrees` | core/src/eval/mod.rs:758-764 | A check of the shape of a value that fails without blaming the term fails again under the simplified contract, unless it vanished in positive position on a value sealed for the context; then exactly that failure is lost |
| `NormalForms.SimplifiedIsNormal` | core/src/typ.rs:1110-1243 | Nothing redundant is left: in positive position a simplified type has no ground type, no array or dictionary of `Dyn`, no quantifier over types or record rows, no record that checks nothing, no field of type `Dyn` unless the record ends in a variable, and no closed enum whose arguments are all `Dyn`; for every type, polarity and state, through arrows |
| `NormalForms.SimplifiedRowsAreNormal` | core/src/typ.rs:827-930 | The same for record rows, which in positive position end in a variable or list only fields with something to check |
| `NormalForms.SimplifiedCasesAreNormal` | core/src/typ.rs:470-525 | The same for enum rows, which are marked for elision if and only if all their arguments are `Dyn` and no variable ends them |
| `NormalForms.NormalExactlyWhenKept` | core/src/typ.rs:1110-1243 | A type is in normal form if and only if simplification leaves it alone |
| `NormalForms.SimplifyTwice` | core/src/typ.rs:1110-1243 | Simplifying a simplified type changes neither the type nor the contract environment |
| `BlameSides.BlameIsRight` | core/stdlib/internals.ncl:15-100 | For every type without quantifiers and every value without seals, higher-order or not: the contract gives the value back, and blames exactly those of its provider and its user who do not keep their side of the type |
| `BlameSides.DictOnSealedTail` | core/src/eval/operation.rs:625-649 | On a sealed tail `$dict_type` blames whoever was to respect the seal, and `$dict_contract` checks the visible fields and leaves the tail alone |
| `BlameSides.SealAndUnseal` | core/stdlib/internals.ncl:112-135 | A variable accepts exactly what its own quantifier sealed, and gives it back |
| `BlameSides.SealAndUnsealTail` | core/stdlib/internals.ncl:365-387 | Sealing a record hides exactly the fields that are not listed and succeeds if and only if none of them is excluded; unsealing gives the record back |
| `BlamePreservation.PreservesFields` | core/src/typ.rs:827-873 | The same for the fields of a record, whether they are kept or elided |
| `BlamePreservation.PreservesTail` | core/src/typ.rs:875-926 | The same for record tails that let the record through before and after, including tails that become dynamic or a generated variable, and tails sealed over an earlier seal |
| `BlamePreservation.RefusedNow` | core/src/typ.rs:875-926 | A tail that let the record through refuses it once excluded fields hidden by an earlier seal are visible: which event is added, which is lost, and when the value is another |
| `BlamePreservation.PreservesRefusal` | core/src/typ.rs:875-926 | A tail that refuses a record on the side of the context still refuses it: the check for excluded fields is not lost |
| `BlamePreservation.DictStep` | core/src/typ.rs:1204-1222 | The same for dictionaries. On a sealed tail the check is skipped in negative position exactly for a removed variable, and in positive position exactly where the field type becomes `Dyn`; on a sealed value exactly in the second case |
| `Agreement.SealAgrees` | core/stdlib/internals.ncl:365-387 | Sealing the other fields for a variable that stays commutes with erasing the seals made for the term, also when it seals over one, unless that one hides excluded fields |
| `Agreement.KeptRefusal` | core/stdlib/internals.ncl:365-387 | If it does, the original contract seals without an event and the simplified one blames the term |
| `Agreement.RemovedRefusal` | core/stdlib/internals.ncl:389-411 | The same for a removed variable, where the context is blamed |
| `BlamePreservation.PreservesEnum` | core/src/typ.rs:470-525 | The same for enum rows |
| `StaticContract.SimplifiedContractAgrees` | core/src/typ.rs:1029-1038 | For a closed annotation, on every observation that does not blame the term and lets nothing escape: original events and those gained are simplified events and those lost, as sets; the term is blamed, and the value is another, each under its exact condition on what the value meets under the type |
| `StaticContract.BlamePreserved` | core/src/typ.rs:1029-1038 | Blame preservation: on every type that keeps its dictionaries in negative position and lists the excluded fields where it seals over, the term is not blamed and every event is still met, but for checks on the side of the term that meet a seal of the context; the only event that may be new is a failure of the context. The events are equal if no check vanished and the context hands over no record that hides an excluded field |
| `StaticContract.NoBlameLost` | core/src/typ.rs:1029-1038 | The same where no check on the side of the term fails: no event at all is lost, and the term is not blamed |
| `SimpleAnnotations.ContextIsStillChecked` | core/src/typ.rs:1029-1038 | If the term keeps its side of a type without quantifiers, the simplified contract blames the context if and only if the context does not keep its own, blames nobody else, and gives the value back |
| `StaticContract.VanishedCheckWitness` | core/src/eval/operation.rs:640-649 | On `(forall r. {; r} -> {; Dyn}) -> {_ : Number}`, which meets every condition of blame preservation, the original contract maps over a record sealed for the context and blames it, and the simplified one meets nothing |
| `StaticContract.NewRefusalWitness` | core/src/typ.rs:875-886 | On `forall r. (forall s. {; s} -> {foo : Number; s}) -> {; r} -> Number`, the original contract meets nothing and the simplified one blames the term |
| `StaticContract.HandedOverWitness` | core/stdlib/internals.ncl:389-411 | On `forall r. {; r} -> {meta : String; r}`, a record that hides `meta` is refused by the simplified contract only |
| `StaticContract.SkippedCheckWitness` | core/src/eval/operation.rs:625-649 | On `forall a. (forall r. {; r} -> {_ : a}) -> Number`, the original contract blames the context and the simplified one does not |
| `StaticContract.SealedOver` | core/src/eval/operation.rs:3447-3525 | On `forall r. (forall s. {; s} -> {; s}) -> {; r} -> {; r}`, passing on a record whose tail is sealed meets no event |
| `StaticContract.FaithfulWithoutFreshTails` | core/src/typ.rs:888-924 | If besides no tail variable was generated, the simplified contract gives the value of the original and meets no other event, and misses none but checks on the side of the term that meet a seal of the context |
| `StaticContract.DroppedFieldWitness` | core/stdlib/internals.ncl:389-411 | On `forall r. {; r} -> {meta : String; r}`, an undeclared field reaches the function only under the original contract |
| `StaticContract.ShadowingWitness` | core/src/typ.rs:1161-1169 | On `forall a. (forall a. a -> a) -> a`, the original contract blames the context and the simplified one does not |
| `SealingPairs.SealingPairsKept` | core/src/typ.rs:1161-1170 | A variable that is not removed keeps all its free occurrences, in order and with their polarities |
| `SealingPairs.NoneLeft` | core/src/typ.rs:1170 | A removed variable is not mentioned any more |
| `SealingPairs.RecordPairsKept` | core/src/typ.rs:804-886 | A record whose tail is such a variable keeps all its fields |
| `SealingPairs.EnumPairsKept` | core/src/typ.rs:470-525 | The same through enum rows, which are elided only if they have no such occurrence |
| `FreshTails.SimplifyGrows` | core/src/typ.rs:904-922 | Simplification adds to the contract environment only generated variables, each with an excluded-fields contract, and overwrites nothing |
| `Elaborate.KeysFillInterval` | core/src/typ.rs:312-436 | The quantifiers of a contract get pairwise distinct keys that fill an interval from the counter |
| `Elaborate.RowKeysFillInterval` | core/src/typ.rs:944-986 | The same through record rows |
| `Elaborate.CaseKeysFillInterval` | core/src/typ.rs:528-657 | The same through enum rows |
| `Elaborate.SimplifiedIsBound` | core/src/typ.rs:301-310 | Elaborating a simplified type never meets an unbound variable |
| `Elaborate.ContractStaticIsClosed` | core/src/typ.rs:1029-1038 | For every closed, well-kinded type, no unbound type variable is reported |
| `ElaborationOutcome.ElaborationExplained` | core/src/typ.rs:312-436 | For every type, elaboration succeeds if and only if all free variables have a contract and no `Symbol` occurs; it reports an unbound variable only for the first reason, and panics only for the second |
| `ElaborationOutcome.RowsExplained` | core/src/typ.rs:944-986 | The same through record rows |
| `ElaborationOutcome.CasesExplained` | core/src/typ.rs:528-657 | The same through enum rows |
| `ElaborationOutcome.SymbolsLeft` | core/src/typ.rs:1170-1175 | Simplification leaves a `Symbol` if and only if one stands in negative position |
| `ElaborationOutcome.ContractExists` | core/src/typ.rs:1042-1051 | A closed, well-kinded type has a contract if and only if no `Symbol` occurs in it |
| `ElaborationOutcome.ContractStaticExists` | core/src/typ.rs:1029-1038 | It has a static contract if and only if no `Symbol` stands in negative position |
| `ElaborationMeaning.ElaborationRuns` | core/src/typ.rs:312-436 | The elaborated contract does to every value what the type does, with keys read through the names of their quantifiers |
| `SealingKeys.KeysFollowBinders` | core/src/typ.rs:312-436 | Every occurrence of a type or record-row variable holds the key of the contract made for its innermost quantifier, and every quantifier stores the parity of the arrow domains on its path |
| `SealingKeys.RowKeysFollow` | core/src/typ.rs:944-986 | The same through record rows |
| `SealingKeys.CaseKeysFollow` | core/src/typ.rs:528-657 | The same through enum rows |
| `SealingKeys.ContractKeys` | core/src/typ.rs:1042-1051 | For every closed type without `Symbol` there is a contract, with the whole discipline: keys from zero on, innermost quantifiers, polarities |
| `SealingKeys.StaticContractKeys` | core/src/typ.rs:1029-1038 | The same for a static annotation with `Symbol` in positive position at most; its generated tails carry no key |
| `SealingKeys.InnerKeyMarks` | core/src/typ.rs:301-310 | In `forall a. forall a. a` the variable belongs to the inner quantifier |
| `SealingKeys.OuterKeyMarks` | core/src/typ.rs:301-310 | The outer key in its place is told apart |
| `SealingKeys.PolarityMarks` | core/src/typ.rs:312-436 | So is another polarity, even on a quantifier that is not used |
| `ElaborationMeaning.ContractMeaning` | core/src/typ.rs:1042-1051 | Every closed type without `Symbol` has a contract, which runs as the type |
| `ElaborationMeaning.StaticContractMeaning` | core/src/typ.rs:1029-1038 | Every closed, well-kinded type without `Symbol` in negative position has a static contract, which runs as the simplified type with the generated tails bound |
| `ElaborationMeaning.StaticContractAgrees` | core/src/typ.rs:1025-1038 | For every closed, well-kinded type without `Symbol` the static contract and the full contract exist and agree as the types do, under the same hypotheses; with blame preservation for the types that have it |
| `ContractGeneration.PeekTail` | core/src/typ.rs:804-823 | The loop finds the declared fields, and whether fields may be elided |
| `ContractGeneration.Simplifier.SimplifyAt` | core/src/typ.rs:1110-1243 | On a shared environment, simplification gives the type and the environment of the specification |
| `ContractGeneration.Simplifier.SimplifyRows` | core/src/typ.rs:827-930 | The same for record rows |
| `ContractGeneration.Simplifier.SimplifyCases` | core/src/typ.rs:470-525 | The same for enum rows |
| `ContractGeneration.Elaborator.Contract` | core/src/typ.rs:312-436 | With a shared counter, elaboration gives the contract of the specification and leaves the counter after its last key |
| `ContractGeneration.Elaborator.Rows` | core/src/typ.rs:944-986 | The same for the loop over record rows |
| `ContractGeneration.Elaborator.Cases` | core/src/typ.rs:528-657 | The same for the loop over enum rows |
| `ContractGeneration.GenerateStatic` | core/src/typ.rs:1029-1038 | Simplification followed by elaboration is the specified static contract |
| `TermCache.Cache.Transform` | core/src/cache.rs:86-130 | Ends on any graph; changes only pending entries in reach, each rewritten once and with all its imports begun; does nothing if and only if the file is through with the pass; a failure has its cause in reach, and loses exactly the entry of a file that cannot be transformed |
| `TermCache.StatesOfThePass` | core/src/cache.rs:1716-1736 | Which states wait for the pass and which are through with it |
| `TermCache.LostEntry` | core/src/cache.rs:95-100 | A file that cannot be transformed has no entry afterwards |
| `TermCache.PassTransformsReachable` | core/src/cache.rs:86-130 | From a settled cache, a successful pass leaves everything in reach transformed, rewrites exactly the pending files in reach, and leaves the cache settled |
| `TermCache.TransformAll` | core/src/cache.rs:86-130 | A pass succeeds if and only if every file in reach is present and, where pending, can be transformed |
| `CacheHub.Hub.ResolveImports` | core/src/cache.rs:2350-2383 | Records the imports of a file in order and parses those seen for the first time; the first that does not parse leaves the only edge that leads nowhere |
| `CacheHub.Hub.Typecheck` | core/src/cache.rs:2696-2768 | Ends on any graph; leaves the cache coherent exactly when no import failed to parse, and otherwise but for that edge; leaves nothing under way when it succeeds; fails only for a cause in reach |
| `CacheHub.BrokenImport` | core/src/cache.rs:2368-2375 | A file that imports one which does not parse leaves a cache that is not coherent |
| `CacheHub.TypecheckAll` | core/src/cache.rs:2696-2768 | From a cache with nothing under way, typechecking succeeds if and only if the file is there and everything ahead of it parses and passes the check; the cache is coherent afterwards if and only if every import it recorded parses |
| `CacheHub.Hub.TypecheckImports` | core/src/cache.rs:2738-2759 | On success every Nickel import of the file has been begun, and none was missing |
| `CacheHub.Hub.Compile` | core/src/cache.rs:1405-1491 | The worklist ends; on a coherent cache it misses an entry only if the file itself is unknown; on success it keeps the term cache closed under imports. Every entry it adds was asked for in its format, by an import recorded for a file in reach or as the main file; it holds the converted AST if that format is Nickel and what reading the file in that format gave otherwise. It fails only on such a file that cannot be read or has no AST |
| `CacheHub.TypecheckedReachable` | core/src/cache.rs:2696-2768 | After typechecking, every Nickel file in reach is typechecked |
| `CacheHub.CompiledReachable` | core/src/cache.rs:1405-1491 | An import-closed term cache has everything in reach of its members |
| `CacheHub.TypecheckAndCompile` | core/src/cache.rs:1405-1491 | The two phases together: everything in reach is typechecked, compilation never reports a missing entry and succeeds if every file can be read in the format it is imported in, and then everything in reach is compiled |
| `ImportData.ImportData.Record` | core/src/cache.rs:2350-2362 | Recording an edge adds exactly that edge to both maps, and keeps the first position |
| `ImportData.ImportData.TransitiveImports` | core/src/cache.rs:721-734 | Exactly the files reached by one or more imports |
| `ImportData.ImportData.TransitiveRevImports` | core/src/cache.rs:705-718 | Exactly the files that reach the file by one or more imports |
| `ImportData.Closure` | core/src/cache.rs:705-734 | The worklist ends, with exactly what one or more edges lead to |
| `ImportData.ClosuresAreDual` | core/src/cache.rs:705-734 | One file is among the transitive importers of another if and only if it transitively imports it |
| `SourceCache.SourceCache.IdOrNewTimestamp` | core/src/cache.rs:492-518 | The id of a name, if and only if it is open or its recorded timestamp is that of the disk; otherwise the timestamp of the disk, or nothing |
| `SourceCache.SourceCache.IdOf` | core/src/cache.rs:475-485 | The id of a path if and only if it is open or unchanged, and of any other name whenever it is known |
| `SourceCache.SourceCache.AddEntry` | core/src/cache.rs:289-308 | Registers a text under a new id, and keeps the table coherent |
| `SourceCache.SourceCache.AddString` | core/src/cache.rs:407-419 | Opens a name in memory under a new id |
| `SourceCache.SourceCache.ReplaceString` | core/src/cache.rs:425-440 | Opens or updates a name in memory, under its old id if and only if that is up to date; no other name and no text under another id changes |
| `SourceCache.SourceCache.GetOrAddFile` | core/src/cache.rs:344-371 | An open or unchanged file keeps its id and nothing changes; otherwise the text on disk gets a new id, with its timestamp, or nothing changes if it cannot be read. Afterwards the name is up to date |
| `SourceCache.SourceCache.CloseInMemoryFile` | core/src/cache.rs:447-470 | Closes an open name and gives the text on disk a new id, or leaves the name closed if it cannot be read; otherwise nothing changes |
| `SourceCache.SourceCache.LiveIdsAreDistinct` | core/src/cache.rs:289-308 | No two names share an id |
| `RelativePath.NormalizeRelPath` | core/src/cache.rs:2202-2233 | The loop gives the canonical form: parent steps first, then names |
| `RelativePath.CanonicalLeadsThere` | core/src/cache.rs:2198-2233 | The canonical form leads where the path leads, from every directory |
| `RelativePath.NormalPathLeadsThere` | core/src/cache.rs:2198-2233 | So does the normalised path, walked as a path |
| `RelativePath.NormalizationIsIdempotent` | core/src/cache.rs:2202-2233 | Normalising a canonical path changes nothing |
| `RelativePath.NormalFormsDecide` | core/src/cache.rs:2198-2233 | Two paths have the same normal form if and only if they lead to the same place from every directory |
| `LayeredEnvironment.NewHandle` | parser/src/environment.rs:43-55 | A new handle has its own map and counts stay exact |
| `LayeredEnvironment.CloneHandle` | parser/src/environment.rs:33-39 | Sharing a layer and its chain keeps counts exact and every map the same |
| `LayeredEnvironment.ChangeInPlace` | parser/src/environment.rs:60-63 | A layer with one owner may be changed in place: no other handle sees it |
| `LayeredEnvironment.PushLayer` | parser/src/environment.rs:127-135 | Pushing a shared layer down changes the map of one handle only |
| `LayeredEnvironment.ReplaceLayer` | parser/src/environment.rs:127-135 | So does replacing a shared empty layer |
| `Environments.Store.Insert` | parser/src/environment.rs:58-70 | The handle's map gets the binding, and every other handle keeps its map; the layer is changed in place if and only if no other environment uses it |
| `Environments.Store.Extend` | parser/src/environment.rs:148-157 | The same for a list of bindings, the last of a key winning |
| `Environments.Store.Clone` | parser/src/environment.rs:33-39 | The new handle refers to the same cells and has the same map, no layer is copied, and every other handle keeps its map |
| `Environments.Store.SetCurrent` | parser/src/environment.rs:127-135 | Starts a new layer over a shared one, or in its place if that is empty |
| `Environments.SharedWhenCounted` | parser/src/environment.rs:58-70 | The reference count of a layer is above one if and only if another environment uses it |
| `Environments.Store.FromIter` | parser/src/environment.rs:139-144 | A new handle with the map of a list |
| `Environments.Store.Drop` | parser/src/environment.rs:25-28 | Releases a handle and all cells that nothing else uses, and every other handle keeps its map |
| `Environments.Store.Get` | parser/src/environment.rs:73-87 | Looking through the layers is looking in the handle's map |
| `Environments.Store.IterLayers` | parser/src/environment.rs:91-93 | Stacking the layers gives the handle's map |
| `Environments.Store.IterElems` | parser/src/environment.rs:99-102 | Collecting the bindings in order gives the handle's map |
| `Environments.Store.PtrEq` | parser/src/environment.rs:106-117 | Handles found equal have equal maps |
| `Environments.Store.IsEmpty` | parser/src/environment.rs:121-123 | Exactly the empty map |
| `EnvironmentRuns.Execute` | parser/src/environment.rs:30-158 | Every run of creating, cloning, inserting, extending and dropping ends, handle by handle, as the same run on maps that share nothing |
| `Interner.SetBit` | parser/src/identifier.rs:506-509 | Setting a bit of a 64-bit word through its mask changes that bit only |
| `Interner.Bitmap.Push` | parser/src/identifier.rs:511-521 | The packed words hold the sequence of bits with one more |
| `Interner.Bitmap.Get` | parser/src/identifier.rs:527-534 | Reading a packed bit is reading the sequence |
| `Interner.Interner.GetOrIntern` | parser/src/identifier.rs:393-398 | The symbol of the text, the same if it was written before; old symbols keep their text |
| `Interner.Interner.Intern` | parser/src/identifier.rs:401-423 | A symbol unlike all others; the map leads only to texts that were written down |
| `Interner.Interner.IsGenerated` | parser/src/identifier.rs:436-438 | Whether the symbol was generated |
| `Interner.Serve` | parser/src/identifier.rs:393-438 | In every run, two answers are the same symbol if and only if the same text was written down both times |
| `Versions.FirstMatchIsLeast` | package/src/resolve.rs:477-488 | On a sorted list the first match is the least version that the requirement accepts |
| `Versions.MatchesExactly` | package/src/version.rs:54-62 | A requirement with a prefix accepts exactly the versions with its major number from its lower bound on; with a patch number, those with its minor number |
| `Versions.MatchesInBucket` | package/src/resolve.rs:330-348 | In its bucket a requirement accepts what is in the range given to the solver, but for later minor versions if it has a patch number |
| `Versions.LowerBoundIsAdmitted` | package/src/resolve.rs:87-97 | The lower bound of a requirement is accepted, in the range and in the bucket given to the solver |
| `Versions.BucketsAreDisjoint` | package/src/resolve.rs:117-125 | A bucket contains exactly the versions whose bucket it is |
| `Versions.FirstMatchFindsOwnBucket` | package/src/resolve.rs:477-488 | The lookup finds the version picked for the requirement's own bucket if and only if the requirement accepts it and no accepted prerelease sorts before it |
| `Versions.ReleasesWithoutPatch` | package/src/resolve.rs:87-126 | Among releases the lookup is right for every requirement that is exact or has no patch number, also for major version 0 |
| `Versions.ReleasesWithPatch` | package/src/version.rs:54-62 | With a patch number it finds the picked version if the minor number is the required one, and nothing otherwise |
| `Versions.PatchWitness` | package/src/resolve.rs:330-348 | 1.5.0 is in the bucket and range of 1.2.3, and is not found |
| `Packages.IndexPackageImports` | package/src/resolve.rs:520-573 | An index package resolves if and only if the index has it and the lookup answers each of its dependencies, and it imports exactly those |
| `Packages.ManifestImports` | package/src/resolve.rs:520-573 | A path or git package resolves if and only if each of its dependencies is in the snapshot or answered by the lookup, and it imports exactly those |
| `LockFiles.LockFileNamer.Name` | package/src/lock.rs:79-98 | A package keeps its name, a new package gets a name no other has, and the numbers of each name have no gaps |
| `LockFiles.EntriesIdentify` | package/src/lock.rs:153-156 | The entry of a git or index package identifies it; that of a local package says nothing about it |
| `LockFiles.LockFileNamer.NameAll` | package/src/lock.rs:158-171 | Every dependency is recorded under the name of its package and with its git spec; a package that is new gets the name of a dependency on it |
| `LockFiles.Collector.Visit` | package/src/lock.rs:153-175 | Writes the entry of a package; the first visit is told by the name, which no other package has |
| `LockFiles.Collector.CollectPackages` | package/src/lock.rs:146-181 | Ends on cyclic graphs; adds only packages in reach, each with its entry and with all its targets; fails only if something in reach does not resolve |
| `LockFiles.NewLock` | package/src/lock.rs:145-203 | Succeeds if and only if the whole tree resolves, with an entry for each package of the tree and for no other, under injective names; each is the name of an import of the package by the manifest or the tree, with numbers that have no gaps |
| `EntryNames.PrintParse` | package/src/lock.rs:43-70 | Reading a printed name back gives it again if and only if it has no space |
| `EntryNames.ParseNumber` | package/src/lock.rs:56-70 | A number after a space is read with or without a plus sign, if and only if it fits into 32 bits |
| `EntryNames.PrintIsInjective` | package/src/lock.rs:43-54 | Different names without spaces are printed differently |
| `LockRoundTrip.CopyFromLock` | package/src/resolve.rs:441-468 | The loops give, for each package id, the sorted versions that the lock file mentions |
| `LockRoundTrip.LockedVersionsAreNeeded` | package/src/lock.rs:145-203 | The lock file mentions exactly the index packages of the tree |
| `LockRoundTrip.SameVersion` | package/src/resolve.rs:477-488 | With fewer versions to choose from, the choice is the same |
| `LockRoundTrip.RoundTrip` | package/src/resolve.rs:441-573 | The rebuilt resolution has the same tree, resolves every dependency in it to the same package, and is locked by the same file |
| `Snapshots.PathIsInUniverse` | package/src/snapshot.rs:124-145 | Path dependencies that exist lead into a finite set of packages, which is why snapshots end |
| `PackagePaths.JoinLeads` | package/src/lib.rs:323-328 | A joined path leads where its second part leads from where the first does |
| `PackagePaths.NormalFormsAgree` | core/src/cache.rs:2202-2233 | Two paths have the same normal form if and only if they lead to the same directory from everywhere |
| `PackagePaths.TargetLeads` | package/src/snapshot.rs:124-145 | A path dependency is located exactly where its path leads from the package that has it |
| `PackagePaths.TargetStays` | package/src/snapshot.rs:124-145 | A path dependency of a package in a repository is a package in the same repository, at the same commit |
| `PackagePaths.RefusedExactlyOutside` | package/src/snapshot.rs:124-145 | A package in a repository may have exactly the path dependencies that stay inside the directory of the repository |
| `PackagePaths.RefusedExactly` | package/src/snapshot.rs:124-145 | The same for a checkout directory that is not absolute, on normal forms |
| `PackagePaths.AbsoluteLeads` | package/src/lib.rs:56-81 | A relative git url is made to lead where it did from the package that has it; it is refused if and only if that package is in a repository |
| `Snapshots.CommitChosen` | package/src/snapshot.rs:86-117 | The commit of a git dependency is the recorded one if and only if the dependency is recorded as it is written; otherwise the commit known so far, or what fetching gives |
| `Snapshots.RecordKeeps` | package/src/snapshot.rs:151-166 | Recording a located dependency keeps the snapshot in order and leaves less to do |
| `SnapshotTree.SnapshotIsUnique` | package/src/snapshot.rs:31-46 | A world and a root manifest determine the snapshot |
| `Snapshotting.Snapshotter.SnapshotRecursive` | package/src/snapshot.rs:77-176 | Ends on cyclic worlds; what it adds is complete; it panics on no lock file without dangling references; led through a tree, it adds only what is in it and fails only where it is unsound; commits come from fetching or from records of the lock file for that very dependency |
| `Snapshotting.NewWithLock` | package/src/snapshot.rs:56-74 | On success every path or git dependency of every manifest leads to a manifest in the snapshot; whatever the lock file, every commit is what fetching gives or recorded for a dependency written as that one; led through a tree, it succeeds if and only if the tree is sound, and gives the tree |
| `Snapshotting.NewSnapshot` | package/src/snapshot.rs:52-54 | From scratch it succeeds if and only if everything in reach can be located and read, and holds exactly what is in reach |
| `Reproducibility.NeverUnanswered` | package/src/snapshot.rs:247-266 | The lookup of a path or git dependency in a snapshot never fails, and stays in the snapshot |
| `Reproducibility.LockableExactlyWhen` | package/src/resolve.rs:496-548 | A lock file can be made if and only if root paths are in normal form and the index has what is asked of it |
| `Reproducibility.ResolvedRootIsNormal` | package/src/resolve.rs:503 | Where everything resolves, every path in the root manifest is in normal form; so any other spelling makes locking fail |
| `PathWitnesses.DotPath` | package/src/resolve.rs:503 | With `./lib` in the root manifest a snapshot can be taken, and no lock file can be made from it |
| `Reproducibility.LocksAreClosed` | package/src/lock.rs:145-203 | A lock file has no dangling references, and git dependencies in it lead to git entries |
| `Reproducibility.LockLeads` | package/src/snapshot.rs:86-117 | A lock file made from a snapshot leads later runs through the same tree |
| `Reproducibility.LockedSnapshot` | package/src/snapshot.rs:56-74 | With the lock file, a later snapshot over the same files is the same snapshot, whatever fetching would give now |
| `UpToDate.BoundedExactlyWhenAcyclic` | package/src/manifest.rs:253-288 | The recursion of the check is bounded if and only if the path dependencies in reach have no cycle |
| `UpToDate.FreshLockIsUpToDate` | package/src/manifest.rs:252-291 | On a fresh lock file the check ends if and only if path dependencies have no cycle, and never says no |
| `PathWitnesses.Cycle` | package/src/manifest.rs:271-284 | The root needs `lib`, and `lib` needs `..`: no depth bounds the check, which gives no answer on a fresh lock file |
| `PathWitnesses.CycleLocks` | package/src/lock.rs:145-203 | Such a lock file can be made |
| `UpToDate.UpToDateRec` | package/src/manifest.rs:253-288 | The loop with its early exits gives the answer of the check whenever there is one |
| `UpToDate.MoreFuel` | package/src/manifest.rs:253-288 | The answer does not depend on the bound used to define it |
| `UpToDate.YesMeansAll` | package/src/manifest.rs:260-285 | The answer is yes if and only if every dependency is up to date, in whatever order they are gone through |
| `UpToDate.YesIsBounded` | package/src/manifest.rs:271-284 | A yes means that all chains of path dependencies were followed to their end |
| `UpToDate.RecordsWhenMatched` | package/src/lib.rs:101-116 | A record matches if and only if, for a git dependency, it has the same git spec, and for an index dependency its entry has the same id and a version that is accepted |
| `UpToDate.UpToDateExactlyWhen` | package/src/manifest.rs:253-288 | The check says yes if and only if path dependencies have no cycle and, wherever they lead, the lock file records each dependency as it is asked for, in the entry that led there |
| `UpToDate.StaleGitIsNoticed` | package/src/manifest.rs:264-270 | If the root asks for a git dependency that is not recorded as it is written, the answer is never yes |
| `UpToDate.RecordedMatches` | package/src/lib.rs:101-116 | What a lock file records for a dependency matches it |
| `UpToDate.UpToDateRecords` | package/src/manifest.rs:242-291 | An up-to-date lock file records every dependency of the path packages in reach: git dependencies with the same spec, index dependencies with their id and a version they accept; copying it gives a version for each index dependency |
| `UpToDate.IsLockFileUpToDate` | package/src/manifest.rs:252-291 | Whenever the check ends: yes if and only if path dependencies have no cycle and every dependency in reach is recorded as it is asked for |
| `UpToDate.LockAgain` | package/src/manifest.rs:308-334 | Locking again with a fresh lock file keeps the file and resolves the whole tree as before |

## Left out

- SimplifiedContractAgrees: asks that no quantifier that stays rebinds a removed name; the converse does not hold, since rebinding a name that is not used in the body is harmless.
- SimplifiedContractAgrees: `TermSafe` leaves out runs that blame the term, for which the source promises nothing, and runs with an `Escape`, where the source may go on without an error and where a typed term can get through a contract annotation of its own. After an `Escape` a run without seals works on other values, and the events of the two have no common cause.
- SimplifiedContractAgrees: events are not counted; that a kind of failure is announced as lost does not say that no other failure of that kind is left.
- BlamePreserved: its conditions on the type are sufficient; the part of the type they speak of may stand where no value gets to it, or where none hides a field. The conditions in SimplifiedContractAgrees are exact.
- Compile: which of its formats a file gets that is imported in several is left open; the source goes through sets of imports in no fixed order.
- LockAgain: takes the index and the files on disk to be those of the first run; only what fetching gives may have changed.
- LockableExactlyWhen: is about snapshots taken from scratch; a lock file written by hand could give two commits for one git dependency.
- PassTransformsReachable: the passes for closurizing, custom transformations and import resolution follow the same scheme over other states and are not modelled.
- Record types with duplicate fields, which the parser refuses (`parser/src/uniterm.rs:412`); the wrapper around embedded contracts; source positions and error messages.
- The inside of the typechecker and of the program transformations: functions of a file.
- `CacheHub::replace_string`, the prefix that marks paths in memory, and path normalisation inside the source cache: names are taken to be normalised.
- Windows path prefixes, and `normalize_abs_path`.
- The version solver and the package index. Precedence of prereleases in the sense of section 11 of Semantic Versioning 2.0.0: the code compares prerelease tags as strings, and so does the model.
- Overflow of 32-bit counters: entry numbers in lock files and interned symbols are unbounded in the model, except in the printed form of entry names.
- Fetching, checking out, git replacements and the serialised form of lock files. A git url is remote text or a path; turning a joined path back into a url always succeeds.
- The copy of the environment in `core/src/environment.rs`, the pretty printer, the command line, deserialisation, documentation extraction and metrics.
