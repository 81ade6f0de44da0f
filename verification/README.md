# Catallaxy, modelled and proved

Catallaxy's command line tool decides what a lab becomes: which types its
generated Nix modules have, what a cluster is allowed to lose, which address
range a lab gets, what a certificate bundle holds. This project models those
decisions in Dafny, with the subprocesses and the network around them left
open, and proves what they promise for every input and every run.

`dafny verify dfyconfig.toml` checks all of it.

| area | modules |
|---|---|
| lab suggestion | `EditDistance` |
| OpenAPI schemas to Nix types | `Json`, `JsonSchema`, `NixTypes`, `SchemaConverter`, `SchemaSoundness`, `SchemaAlternatives`, `SchemaExactness`, `SchemaWitnesses` |
| the Nix printer and its reader | `NixStrings`, `NixIndented`, `NixEmitter`, `NixRoundTrip`, `NixDocument`, `GeneratedText` |
| schema tightening | `BuildSchemas`, `Tightening`, `StrictShape`, `Loosening` |
| cache warming | `Warm`, `WarmRaces`, `WarmNamesakes` |
| certificate bundles | `Text`, `Sequences`, `Trust` |
| address ranges | `Subnet`, `Allocator` |
| deletion planning | `Prune`, `Ordering` |
| machine inventory | `HostInventory`, `Correlation`, `Conservation`, `InventoryFacts` |
| secrets | `EnvNames`, `ShellText`, `SecretStores`, `StoreValidation`, `EnvRoundTrip` |
| plan execution | `Executor`, `ExecutorRuns` |
| cluster convergence | `ClusterShape`, `Convergence`, `ConvergenceSafety` |
| documentation summary | `Summary`, `SummaryLinks`, `SummaryText` |
| shared | `Prelude`, `Strings` |

What the outside answers is a parameter everywhere: the `World` of the executor
and of convergence, the `Draws` of minting, the mirror of cache warming, the
environment a store is read from. A property holds for every such answer.
Objects that update themselves are classes (`SchemaConverter`, `Host`), loops
are methods with invariants, and each is tied to a function about which the
lemmas speak.

## Where the code does not do what one would expect

Each of these is a lemma about the code as it is, and the properties around it
say when it happens and when it cannot.

- `SchemaWitnesses`: six kinds of schema are narrowed by the conversion: a
  `number` becomes `types.float`, which turns integers away; declared
  properties beside a schema-valued `additionalProperties` are dropped; a node
  with `properties` and no `type` turns scalars away; a cycle through a
  non-object is cut to `types.attrs`; an `int-or-string` enumeration keeps its
  strings alone; and of several alternatives `types.either` and `types.oneOf`
  commit to the first whose shallow check passes, so an object meant for the
  second is lost in the first. `SchemaSoundness.ConversionOverapproximates`
  shows that nothing else is, and `NixTypes.Distinguishable` says which
  alternatives are safe.
- `NixStrings.BareNamesAreLost`: an empty attribute name, or one with letters
  outside ASCII, is written without quotes, which Nix cannot read back.
- `NixIndented.RunsOfThreeOrFour`: in a description of several lines, a run of
  single quotes can end the string it stands in, three or four of them for one.
  `NixIndented.IndentedReads` says exactly which descriptions are closed where
  they should be.
- `Loosening.NotIsLoosened`, `Loosening.OneOfIsLoosened`,
  `Loosening.PreserveIsLoosened`, `Loosening.EnumIsLoosened`: four kinds of
  schema accept more after tightening than before: a schema closed under `not`;
  one closed beside its rivals in a `oneOf`; a node that preserves unknown
  fields, opened over its own `additionalProperties`; and an enumeration with a
  value that reads like an object schema, which the pass rewrites
  (`Loosening.EnumIsLoosenedExactly` says which enumerations).
  `Tightening.StrictOnlyTightens` shows that nothing else does; its hypotheses
  are sufficient, not necessary.
- `WarmRaces.RaceHidesExactlyTheShared`: a tag list fetched before a sync can be
  inserted after the sync dropped the entry, so the cache forgets the synced
  tag; it takes two permits and two images of one repository. When a request
  for a tag list fails and is cached as an empty list, one permit is enough
  (`WarmRaces.HidesExactlyTheShared`). The cache never invents a tag.
- `WarmNamesakes.ReadyWithoutExactlyByANamesake`: a sync names the registry, but
  tags are looked up by repository alone, so an image can be reported ready when
  the mirror does not hold it. That happens exactly when another registry's
  image of that repository and tag is in the mirror from the start or is fetched
  as well; otherwise ready means held (`WarmNamesakes.ReadyMeansOwn`).
- `Prune.NamesakeIsDeleted`: resources are planned for deletion by kind,
  namespace and name. Kinds of one name in two API groups share their keys, so
  a resource to be kept is deleted with its namesake, and only then
  (`Prune.UnappliedBundlesAreNamed`).
- `EnvNames.SeparatorInsideCollides`, `EnvNames.EdgeCollides`: two secrets of a
  store can share an environment variable. `EnvNames.TellsPartsExactly` says
  which secrets and keys cannot share theirs with any other of the store, and
  `EnvNames.TellsAllExactly` which cannot with any other of any store: those
  whose parts hold no two neighbours outside ASCII letters and digits, and none
  at an edge that a separator touches.
- `ClusterShape.SeparatorHidesAChange`, `ClusterShape.ToldOptions`: a list
  element holding `, ` reads as two elements, and an unset option like one set
  to `(unset)`, so a change between them is no drift.
  `ClusterShape.NothingIsHiddenExactlyWhenTold` says which declarations are
  safe from that.
- `ConvergenceSafety.DriftedPortsAreRecordedUnapplied`: ports that drifted call
  for a new loadbalancer, the loadbalancer is skipped, and the declared ports
  are recorded as built.
- `ExecutorRuns.DryTeardownForgets`, `ExecutorRuns.StoppedTeardownForgets`: a
  dry run of a teardown forgets the lab's record, as does one stopped early by
  `--up-to`.
- `SummaryText.DoubledReturnsFade`: a line closed by two carriage returns loses
  one each time the summary is spliced.

Besides, the bound of `nearest` counts UTF-8 bytes while the distance counts
characters; the function `EditDistance.Tolerance` is that bound.

## Model

| member | source | states |
|---|---|---|
| `EditDistance.EditDistance` | cli/src/io/nix.rs:305-319 | the two rows, swapped after each character, end with the recursive Levenshtein distance in the last cell |
| `EditDistance.DistanceIsLeastEdits` | cli/src/io/nix.rs:305-319 | a number is the distance exactly when some script of that many insertions, deletions and substitutions leads from one string to the other and none is shorter |
| `EditDistance.ZeroMeansEqual` | cli/src/io/nix.rs:305-319 | only equal strings are at distance zero |
| `EditDistance.Symmetric` | cli/src/io/nix.rs:305-319 | the distance is the same both ways |
| `EditDistance.Triangle` | cli/src/io/nix.rs:305-319 | a detour is never shorter |
| `EditDistance.NearestIsFirstMinimum` | cli/src/io/nix.rs:296-303 | the suggestion is the first candidate at the least distance, and there is none exactly when every candidate is more than two edits away and its distance, less one, is still a third of the bytes |
| `EditDistance.WidthIsLeast` | cli/src/io/nix.rs:296-303 | a character counts as the fewest bytes that can hold it, the bytes the bound is taken from |
| `EditDistance.NearestOfKnownLab` | cli/src/io/nix.rs:296-303 | a lab that is in the list is its own suggestion |
| `SchemaConverter.SchemaConverter.ConvertSchema` | cli/src/codegen/schema.rs:124-167 | returns the type the node converts to as a function of the set of names on the reference stack, terminates on any definitions, cyclic or not, and leaves the stack as it was |
| `SchemaConverter.SchemaConverter.ConvertArraySchema` | cli/src/codegen/schema.rs:195-202 | a list of the converted items, of anything without items; the stack is left as it was |
| `SchemaConverter.SchemaConverter.ConvertObjectSchema` | cli/src/codegen/schema.rs:204-256 | attributes, attributes of one type, or a submodule of the declared properties; the stack is left as it was |
| `SchemaConverter.SchemaConverter.ConvertProperties` | cli/src/codegen/schema.rs:225-246 | one option for each declared property, required or nullable, and no other |
| `SchemaExactness.OptionsMean` | cli/src/codegen/schema.rs:225-246 | a property of a converted object has a default exactly when it is not required, its option admits what its own type does and besides only null, exactly then, and so every option admits its default |
| `SchemaExactness.EnumerationIsExact` | cli/src/codegen/schema.rs:169-181 | the type of a string node that lists a string admits exactly the listed strings |
| `SchemaExactness.AlternativesAdmitNoMore` | cli/src/codegen/schema.rs:137-148 | of a `oneOf`, or an `anyOf` where there is none, the type admits no value that none of the alternatives' types admits |
| `SchemaExactness.AdmittedIsAccepted` | cli/src/codegen/schema.rs:124-275 | of a schema that says nothing the conversion drops, the type admits no value without nulls that the schema does not accept |
| `SchemaExactness.ConversionIsExact` | cli/src/codegen/schema.rs:124-275 | with nothing dropped and nothing narrowed, it admits exactly the values without nulls that the schema accepts |
| `SchemaConverter.SchemaConverter.ConvertRefPath` | cli/src/codegen/schema.rs:258-274 | a name unknown or already on the stack gives plain attributes, any other its definition converted above it; the stack is left as it was |
| `SchemaConverter.PushShrinks` | cli/src/codegen/schema.rs:258-274 | entering a definition leaves strictly fewer definitions to enter, the measure that ends the recursion |
| `SchemaConverter.SchemaConverter.ConvertBranches` | cli/src/codegen/schema.rs:137-148 | each alternative converted in order, the stack left as it was between them |
| `SchemaConverter.SchemaConverter.ConvertResource` | cli/src/codegen/schema.rs:97-122 | the resource of a definition: its kind, its converted `spec` if it has one, and its description |
| `SchemaConverter.ConvertOpenApiToTypes` | cli/src/codegen/schema.rs:30-53 | the loop over the definitions in name order gives the type set of the whole document, types and resources |
| `SchemaConverter.GeneratedTypes` | cli/src/codegen/schema.rs:30-53 | every definition that is not excluded, and no other, has the type it converts to from an empty stack, whatever came before it |
| `SchemaConverter.SkippedMeans` | cli/src/codegen/schema.rs:30-53 | a definition is excluded exactly when one of the excluded words stands somewhere in its name |
| `SchemaConverter.ResourcesAreLastDeclared` | cli/src/codegen/types.rs:178-181 | a resource is generated exactly when some definition names its group, version and kind, and is that of the last such definition in name order |
| `SchemaConverter.SpecOfResource` | cli/src/codegen/schema.rs:97-122 | a resource has a spec exactly when its definition has a property of that name, and its type is that property's |
| `SchemaConverter.NamesAResource` | cli/src/codegen/schema.rs:64-73 | a definition names a resource exactly when the first of its annotations gives group, version and kind as strings |
| `SchemaConverter.KeysAreOneToOne` | cli/src/codegen/types.rs:178-181 | resources of different groups, versions or kinds have different keys when versions and kinds hold no slash |
| `SchemaSoundness.ConversionOverapproximates` | cli/src/codegen/schema.rs:124-275 | a value the schema accepts, through references, `allOf`, alternatives, arrays and objects, is admitted by the Nix type, alternatives committing to the first whose head the value passes; the schemas narrowed on purpose or by accident are named by the hypotheses |
| `SchemaSoundness.DeclaredObjectIsOnlyObjects` | cli/src/codegen/schema.rs:258-274 | declaring `type: object` is enough for a definition the conversion may cut |
| `SchemaSoundness.NeverARef` | cli/src/codegen/schema.rs:124-275 | no reference is left anywhere in a converted type |
| `Json.RefNameMeans` | cli/src/codegen/schema.rs:258-274 | a reference into the definitions names one of them, and any other text names itself |
| `Json.AccessorsMean` | cli/src/codegen/schema.rs:124-167 | a string, array or object is read under a key exactly when the value is an object that holds one there |
| `SchemaAlternatives.KindsTellOverapproximate` | cli/src/codegen/schema.rs:137-148 | when no alternative declares a kind of value it might turn away that a later one declares as well, read off the document through one reference, alternatives need nothing more: scalars before anything, arrays before what is no array, objects before what is neither object nor string |
| `SchemaWitnesses.EarlierAlternativeHides` | cli/src/codegen/schema.rs:137-148 | of two objects that require different keys, a value the second accepts and its type admits is turned away by the type of both |
| `SchemaWitnesses.EnumLosesItsIntegers` | cli/src/codegen/schema.rs:169-181 | an `int-or-string` enumeration of a string and an integer turns the integer away |
| `SchemaWitnesses.NumberRejectsIntegers` | cli/src/codegen/schema.rs:150-154 | without reading `types.float` as any number, the type for a number turns away an integer the schema accepts |
| `SchemaWitnesses.DeclaredPropertiesAreLost` | cli/src/codegen/schema.rs:204-216 | beside a schema-valued `additionalProperties`, declared properties are not kept: a value the schema accepts is turned away |
| `SchemaWitnesses.UntypedPropertiesRejectScalars` | cli/src/codegen/schema.rs:158-164 | a node with properties and no type turns away a null the schema accepts |
| `SchemaWitnesses.CyclicArrayIsCut` | cli/src/codegen/schema.rs:258-274 | a recursive array is cut to attributes and turns away a nested array the schema accepts |
| `NixStrings.EscapeIsOnePass` | cli/src/codegen/nix_emitter.rs:28-34 | the five chained replacements are one pass from left to right |
| `NixStrings.QuotedReadsBack` | cli/src/codegen/nix_emitter.rs:28-34 | a written string ends at its own closing quote, interpolates nothing and reads back as itself, exactly when it holds no carriage return |
| `NixStrings.NameReadsBack` | cli/src/codegen/nix_emitter.rs:49-63 | a written attribute name reads back exactly when it is quoted, or is neither empty nor outside ASCII |
| `NixStrings.BareNamesAreLost` | cli/src/codegen/nix_emitter.rs:49-63 | the empty name, and a letter beyond ASCII, are written bare and not read back |
| `NixIndented.IndentedReads` | cli/src/codegen/nix_emitter.rs:36-47 | what a description of several lines is escaped to ends at its own closing quotes exactly when no run of single quotes in its trimmed lines leaves two, counted as written and three at a time, unless a dollar or a backslash takes them in |
| `NixIndented.RunsOfThreeOrFour` | cli/src/codegen/nix_emitter.rs:36-47 | a run of single quotes with nothing special behind it ends the string early exactly when its length is three or four modulo six |
| `NixDocument.EmitType` | cli/src/codegen/nix_emitter.rs:258-327 | the pieces put together are the text of the type |
| `NixDocument.EmitList` | cli/src/codegen/nix_emitter.rs:314-321 | the elements with one space between any two |
| `NixDocument.EmitSubmodule` | cli/src/codegen/nix_emitter.rs:329-357 | the options in name order, then the freeform type if there is one, as the text of the submodule |
| `NixDocument.EmitOption` | cli/src/codegen/nix_emitter.rs:359-397 | the name, type, default and description of an option, as its text |
| `NixDocument.TypeAppends` | cli/src/codegen/nix_emitter.rs:258-327 | the text of a type is the same whatever follows it |
| `NixRoundTrip.TypeReads` | cli/src/codegen/nix_emitter.rs:258-397 | reading the text of a type gives the type back and leaves what follows, references turned into attributes, unprinted descriptions gone, and descriptions of several lines as they are written |
| `NixRoundTrip.PrintingIsInjective` | cli/src/codegen/nix_emitter.rs:258-397 | two types have the same text exactly when they read back the same |
| `NixRoundTrip.NothingIsLost` | cli/src/codegen/nix_emitter.rs:258-397 | without references, and with descriptions printed on one line each, what is read back is the type itself |
| `NixRoundTrip.ReadTypeAdmitsTheSame` | cli/src/codegen/nix_emitter.rs:258-397 | the type read back admits exactly the values the printed one admits |
| `GeneratedText.GeneratedTextReadsBack` | cli/src/codegen/nix_emitter.rs:258-397 | the text generated for a schema reads back as the type it was converted to, but for descriptions of several lines, which read as they are written |
| `GeneratedText.GeneratedTextOverapproximates` | cli/src/codegen/schema.rs:124-275 | from schema to text and back: what the schema accepts, the type read from the generated text admits |
| `BuildSchemas.StrictifyNode` | nix/schemas/build-schemas.py:57-86 | the loop over a node gives its tightened form, or fails exactly when some `properties` below it is not a mapping |
| `BuildSchemas.StrictifyField` | nix/schemas/build-schemas.py:75-81 | how one key is tightened: combinators stay open, properties close one by one, the rest closes |
| `Tightening.Idempotent` | nix/schemas/build-schemas.py:57-86 | tightening twice is tightening once, for both values of `close` |
| `StrictShape.PassExactly` | nix/schemas/build-schemas.py:57-86 | the tightened schema is the one that keeps every field of every node and says of the undeclared ones: allowed where unknown fields are preserved, forbidden at a node with properties that says nothing itself and is no combinator branch, and else as it was |
| `StrictShape.ClosedThroughout` | nix/schemas/build-schemas.py:57-86 | no node below, however deep, that declares properties and is no combinator branch is left silent about undeclared fields |
| `StrictShape.RaisesExactly` | nix/schemas/build-schemas.py:69-75 | the pass fails exactly when some path through the schema meets a `properties` that is no mapping |
| `Tightening.StrictOnlyTightens` | nix/schemas/build-schemas.py:57-86 | a value the tightened schemas accept, references resolved among the tightened definitions, is accepted by the originals, when `oneOf` and `not` branches and what they reach are left unchanged, enumerations list the tightened form of each of their values, and a node that preserves unknown fields gives them no schema but `true` |
| `Tightening.DefinitionsPass` | nix/schemas/build-schemas.py:57-86 | tightening the definitions mapping tightens each definition |
| `Tightening.UndeclaredFieldRejected` | nix/schemas/build-schemas.py:82-85 | a closed object schema that does not preserve unknown fields turns away an undeclared field |
| `Tightening.PreservedFieldAccepted` | nix/schemas/build-schemas.py:82-83 | a node that preserves unknown fields takes every undeclared field, closed or not |
| `Tightening.BranchStaysOpen` | nix/schemas/build-schemas.py:60-67 | the body of a combinator branch gains no key |
| `Loosening.NotIsLoosened` | nix/schemas/build-schemas.py:75-85 | closing under `not` accepts a value the original turned away |
| `Loosening.OneOfIsLoosened` | nix/schemas/build-schemas.py:75-85 | closing one of two `oneOf` branches accepts a value the original turned away because both accepted it |
| `Loosening.EnumIsLoosenedExactly` | nix/schemas/build-schemas.py:75-85 | an enumeration that asserts nothing else lets a value through after the pass that it turned away before exactly when the tightened form of one of its values is not listed |
| `Loosening.EnumIsLoosened` | nix/schemas/build-schemas.py:75-85 | one value that reads like an open object schema is enough: its closed form is let through |
| `Loosening.PreserveIsLoosened` | nix/schemas/build-schemas.py:82-83 | an object closed by its author is opened when it preserves unknown fields: a value it turned away is accepted |
| `Warm.StepKeepsInv` | cli/src/images/mod.rs:272-283 | every step of every task keeps the permits balanced, every cached or fetched tag listed by the mirror, and every finished image true to its route |
| `Warm.EveryRunIsSafe` | cli/src/images/mod.rs:255-286 | in every interleaving, running tasks never exceed the permits, cached tags are listed by the mirror, and of an image reported ready the mirror holds the copy from its own registry or another registry's of the same repository and tag |
| `Warm.RegistryDecides` | cli/src/images/mod.rs:515-524 | in every run, an image of a lab-owned registry, upstream or not, is never looked up or synced and ends only as lab-published or panicked, one of a registry in neither list only as not mirrored or panicked, and one of an upstream alone is never skipped |
| `Warm.FoundByTag` | cli/src/images/mod.rs:319-328 | a cached list is searched for the tag, of a pinned image as well, and without a tag for the digest or `latest`; only when it is missing is the image synced |
| `Warm.FinishedStays` | cli/src/images/mod.rs:272-283 | in every run, a task that has finished keeps its outcome to the end |
| `Warm.RunsAreShort` | cli/src/images/mod.rs:289-395 | no run takes more than seven task steps for each image |
| `Warm.NoDeadlock` | cli/src/images/mod.rs:272-283 | while a task is unfinished, some task can take a step |
| `Warm.StaleInsertSurvives` | cli/src/images/mod.rs:330-369 | from any state the invariant allows, with a tag list waiting to be inserted, a sync and its removal before the insert hide the synced tag, and the invariant stands |
| `Warm.CountsPartition` | cli/src/images/mod.rs:398-460 | ready, skipped and failed add up to all the outcomes, so the subtraction never underflows |
| `Warm.ReportWarmResults` | cli/src/images/mod.rs:398-460 | the counters count the outcomes, a panicked task among the failed, and every image that is not mirrored is listed as often as its task said so |
| `Warm.ReadyMeansHeld` | cli/src/images/mod.rs:255-286 | when all tasks are done there is one result for each image; of a ready one the mirror holds its own copy or a namesake, and skipped ones were never to be fetched |
| `WarmRaces.HidesExactlyTheShared` | cli/src/images/mod.rs:319-369 | with a permit to be had, some run syncs an image and ends with a cached list that lacks it exactly when another image to be fetched shares its repository |
| `WarmRaces.RaceHidesExactlyTheShared` | cli/src/images/mod.rs:319-369 | when no tag list leaves out a tag, that takes two permits as well: a list fetched before the sync, inserted after it |
| `WarmNamesakes.ReadyMeansOwn` | cli/src/images/mod.rs:319-395 | with no namesake in the mirror or among the images to be fetched, an image reported ready is in the mirror from its own registry |
| `WarmNamesakes.GainsAreCopies` | cli/src/images/mod.rs:534-548 | what the mirror gains in a run are copies of images to be fetched, each from its own upstream registry, by its digest if it is pinned and else by its tag, one-part Docker Hub names below `library/` |
| `WarmNamesakes.ReadyWithoutExactlyByANamesake` | cli/src/images/mod.rs:534-548 | while the mirror gains only what is synced, some run reports an image ready that the mirror does not hold exactly when there is a permit, the image is to be fetched and not held at the start, and a namesake from another registry is held or to be fetched |
| `Trust.PemBlocks` | cli/src/io/trust.rs:69-90 | the line machine gives the certificate blocks of the text |
| `Trust.BlocksAreSpans` | cli/src/io/trust.rs:69-90 | a block is exactly what stands from the last BEGIN before an END up to that END |
| `Trust.BlocksDistribute` | cli/src/io/trust.rs:69-90 | the blocks of two sequences of lines are those of both together, exactly when no block left open meets an END that comes first |
| `Trust.FilesDistribute` | cli/src/io/trust.rs:122-128 | the blocks of two files joined by a newline are those of each, exactly when the first leaves no block open or the second does not start with an END |
| `Trust.RootFilesDistribute` | cli/src/io/trust.rs:121-129 | root files none of which starts with an END give their blocks file by file |
| `Text.WhitespaceIsListed` | cli/src/io/trust.rs:70-89 | what is trimmed are the characters Unicode lists as white space |
| `Trust.Merge` | cli/src/io/trust.rs:92-101 | the loop keeps each block where it first occurs |
| `Trust.MergedIsUnion` | cli/src/io/trust.rs:92-101 | the merge holds exactly the blocks of both, each once, in the order first met |
| `Trust.MergeIsFixpoint` | cli/src/io/trust.rs:92-101 | the joined merge reads back as itself, and merging the authority into it again changes nothing |
| `Trust.EnsureBundle` | cli/src/io/trust.rs:111-152 | the joined merge of all the files, exactly when root files and authority have two certificates at least, and more between them than the authority has blocks |
| `Trust.BundledExactly` | cli/src/io/trust.rs:132-139 | a bundle is made exactly then, and so never without root files |
| `Trust.BundleHoldsThemAll` | cli/src/io/trust.rs:132-139 | a block is in the bundle exactly when it is in the root files or in the authority, and is there once |
| `Trust.BundleAddsToTheCa` | cli/src/io/trust.rs:132-139 | a bundle is made only when it holds some root besides every block of the lab authority |
| `Trust.BundleIsStable` | cli/src/io/trust.rs:111-152 | building again from the bundle gives the same bundle |
| `Subnet.OverlapIsSharedAddress` | cli/src/domain/subnet.rs:23-26 | two ranges overlap exactly when some address lies in both, equivalently when one contains the other |
| `Subnet.ParseOfDisplay` | cli/src/domain/subnet.rs:10-33 | what is displayed parses back as the same range |
| `Subnet.ParsesExactly` | cli/src/domain/subnet.rs:10-22 | a text parses exactly when, trimmed, it is a dotted address with no leading zeros, a slash and a number of at most 32, and as the network of that address |
| `Subnet.NumbersMayBePadded` | cli/src/domain/subnet.rs:10-22 | the prefix may have a plus sign and leading zeros |
| `Subnet.MaskTakesLeadingBits` | cli/src/domain/subnet.rs:35-41 | no prefix masks nothing, and each step of the prefix masks the next leading bit |
| `Subnet.CollidingIsSharing` | cli/src/domain/subnet.rs:43-53 | the ranges reported are exactly the taken ones that share an address with the subnet |
| `Subnet.CollidingDistributes` | cli/src/domain/subnet.rs:43-53 | they are reported in the order they are taken, each as often |
| `Subnet.FirstFreeIsLowestUntouched` | cli/src/domain/subnet.rs:55-63 | the lowest of the sixteen ranges that shares no address with any taken one, and nothing only when none is left |
| `Subnet.AllocationsStayInPool` | cli/src/domain/subnet.rs:55-63 | allocating over and over hands out ascending ranges of the pool, at most sixteen |
| `Subnet.AllocationsAreDisjoint` | cli/src/domain/subnet.rs:55-63 | ranges handed out one after another share no address, with each other or with what was taken |
| `Prune.PlanPrune` | cli/src/domain/prune.rs:116-144 | the loop and its sorts give the plan |
| `Prune.PlannedMeans` | cli/src/domain/prune.rs:119-138 | a key is under a heading exactly when a live resource of that key has that fate |
| `Prune.PlannedExactly` | cli/src/domain/prune.rs:119-138 | a key is deleted exactly when a live resource of that key, not storage, is of a bundle no longer declared, or of one this run applied without it; such storage is reported instead, and so is what has no bundle |
| `Prune.PlanPartitions` | cli/src/domain/prune.rs:116-144 | every live resource is in exactly one list, or kept |
| `Prune.StorageIsNeverDeleted` | cli/src/domain/prune.rs:133-137 | no volume or claim is ever in the list of deletions |
| `Prune.UnappliedBundlesAreUntouched` | cli/src/domain/prune.rs:125-131 | the plan is the one made without the resources of a declared bundle this run did not apply |
| `Prune.UnappliedBundlesAreNamed` | cli/src/domain/prune.rs:125-131 | the key of such a resource is under a heading exactly when another live resource of that key has that fate |
| `Prune.NamesakeIsDeleted` | cli/src/io/kubectl/owned.rs:147-154 | with two live resources of one key, the one to be kept is deleted with the other |
| `Prune.ManifestScopeIsIgnored` | cli/src/domain/prune.rs:107-114 | a cluster-scoped resource is recognised whatever namespace its manifest stamped |
| `Prune.OrderDoesNotMatter` | cli/src/domain/prune.rs:116-144 | the plan is the same for every order of the live list |
| `Prune.DeclaringMoreDeletesLess` | cli/src/domain/prune.rs:125-131 | declaring more, and applying more resources, adds no deletion or storage report, unless a bundle is newly applied without the resource |
| `Prune.ReplanningDeletesNothing` | cli/src/domain/prune.rs:116-144 | planning again once the deletions are carried out deletes nothing and reports the same storage |
| `HostInventory.ContainerNameMeans` | cli/src/domain/inventory.rs:96-103 | a container name says a lab exactly when it is the prefix, that non-empty lab, a dash and a service name |
| `HostInventory.ServicesAreNamed` | cli/src/domain/inventory.rs:96-103 | the ingress, dns, registry and router containers of a lab say that lab |
| `HostInventory.AttributionMeans` | cli/src/domain/inventory.rs:144-158 | a container is the lab's its label names, and by its name only when the label is missing or empty |
| `HostInventory.OriginCountsFlakes` | cli/src/domain/inventory.rs:105-117 | merging flake by flake is unknown, one or conflicting by the distinct flakes seen, listed once each |
| `HostInventory.ClaimantIsLast` | cli/src/domain/inventory.rs:172-177 | a cluster is claimed by the last record that names it |
| `Correlation.AttributeContainers` | cli/src/domain/inventory.rs:143-167 | the first pass gives each lab its containers, their origins and how they were attributed |
| `Correlation.ClaimClusters` | cli/src/domain/inventory.rs:172-177 | the claims made record by record are those of the last record to make them |
| `Correlation.AttributeClusters` | cli/src/domain/inventory.rs:179-190 | the second pass adds each claimed cluster to its lab and reports the others |
| `Correlation.AttributeRecords` | cli/src/domain/inventory.rs:192-208 | the third pass marks the labs that have a record, and reports a record whose lab is not there |
| `Correlation.Correlate` | cli/src/domain/inventory.rs:139-230 | the passes together find the live labs in name order, each with all its facts, and what no lab claims |
| `Conservation.ListedExactlyWhenLive` | cli/src/domain/inventory.rs:139-230 | a lab is listed exactly when a container is attributed to it or a live cluster claimed for it: a record alone creates none |
| `Conservation.ListedOnce` | cli/src/domain/inventory.rs:212-223 | no lab is listed twice |
| `Conservation.ContainersAreConserved` | cli/src/domain/inventory.rs:143-167 | every container is in one lab, among the unattributed, or ignored, and in no second place |
| `Conservation.ClustersAreConserved` | cli/src/domain/inventory.rs:179-190 | every live k3d cluster is in one lab or reported unknown |
| `InventoryFacts.ViewExactly` | cli/src/domain/inventory.rs:133-222 | a listed lab has the containers its label or, without one, its service names say, the live clusters its record is the last to name, its network if there is one of its name, and a record exactly if there is one |
| `InventoryFacts.AttributionsExactly` | cli/src/domain/inventory.rs:133-222 | it counts as labelled, named or recorded exactly when a container's label, a container's name, or a record or claimed cluster says it |
| `InventoryFacts.OriginExactly` | cli/src/domain/inventory.rs:105-117 | its origin is the one flake its containers and records name, unknown without any, and a conflict of all of them otherwise |
| `InventoryFacts.OrphansExactly` | cli/src/domain/inventory.rs:133-222 | reported are exactly the containers named like a lab's that are no lab's, the live clusters no record names, and the records of labs nothing else is found of |
| `EnvNames.TellsPartsExactly` | cli/src/domain/secrets.rs:153-172 | within a store, a variable name is that of no other normalised secret and key exactly when, normalised, the secret has no two neighbouring underscores and none at its end, and the key no two and none at its start |
| `EnvNames.TellsAllExactly` | cli/src/domain/secrets.rs:153-172 | among all stores, exactly when besides the store has no two and none at its end, and the secret none at its start |
| `EnvNames.SeparatorInsideCollides` | cli/src/domain/secrets.rs:153-172 | a separator inside a name makes two secrets share a variable |
| `EnvNames.EnvCharMeans` | cli/src/domain/secrets.rs:162-172 | in a variable name ASCII letters are upper case, digits stay and everything else is an underscore |
| `EnvNames.EdgeCollides` | cli/src/domain/secrets.rs:153-172 | so does punctuation at the edge of a name |
| `ShellText.LineAssigns` | cli/src/commands/secrets.rs:737-739 | a printed line, sourced, assigns its value to its name whatever the value holds |
| `EnvRoundTrip.PrintEnvStore` | cli/src/commands/secrets.rs:436-446 | the nested loops print one line for each secret and key in order |
| `EnvRoundTrip.ReadEnvStore` | cli/src/io/secrets.rs:49-63 | the loop reads each binding whose variable is set |
| `EnvRoundTrip.AgreementRoundTrips` | cli/src/commands/secrets.rs:436-446 | a store printed, sourced and read back is its declared part when pairs that share a variable share a value |
| `EnvRoundTrip.RoundTripsExactlyWhenAgreeing` | cli/src/io/secrets.rs:49-63 | when everything printed is declared, exactly then |
| `EnvRoundTrip.EnvironmentRoundTrip` | cli/src/commands/secrets.rs:436-446 | names that stay apart once normalised are enough for the whole journey, which ends with the declared part and nothing else |
| `SecretStores.GeneratedIsUsable` | cli/src/generators.rs:37-55 | nothing a generator can draw is blank or the placeholder |
| `SecretStores.InsertMinted` | cli/src/commands/secrets.rs:479-516 | the loop keeps the minted keys of every secret asked for, and stops at the first refusal, naming its secret |
| `SecretStores.MintStore` | cli/src/commands/secrets.rs:470-519 | a store is minted exactly when every generator and signature it needs gives a value, and holds the minted keys of its secrets and no other; else the error names the first secret refused |
| `SecretStores.OperatorValuesAreKept` | cli/src/commands/secrets.rs:496-509 | a usable value for a key nothing generates is kept to the letter |
| `SecretStores.AuthoritiesAreKept` | cli/src/commands/secrets.rs:487-492 | an authority holding a certificate is kept whole |
| `SecretStores.FreshAuthorities` | cli/src/commands/secrets.rs:487-492 | one without a certificate is given the certificate and the key that were signed, each under its own name, and nothing else |
| `SecretStores.GeneratedAreRedrawn` | cli/src/commands/secrets.rs:496-509 | a key with a generator is drawn anew, whatever the store held |
| `SecretStores.MintsExactly` | cli/src/generators.rs:11-55 | a secret is minted exactly when each generator it names is `uuid`, or `base64`, `hex` or `alphanumeric` with a length of 1 to 4096, or when its authority is held or can be signed |
| `SecretStores.OneSecretAlone` | cli/src/commands/secrets.rs:479-482 | naming one secret leaves every other out of what is written |
| `StoreValidation.ValidateStore` | cli/src/domain/secrets.rs:224-256 | the nested loops report the problems secret by secret, key by key |
| `StoreValidation.ReportedExactlyWhenFaulty` | cli/src/domain/secrets.rs:224-256 | a problem is reported exactly when a declared secret or key of the store has it |
| `StoreValidation.ReportedInOrder` | cli/src/domain/secrets.rs:224-256 | problems come in the order of their secrets, and of the keys within a secret |
| `StoreValidation.MintedStoreProblems` | cli/src/domain/secrets.rs:224-256 | after minting a whole store, exactly the keys still waiting for an operator are reported, value secrets without keys, and what the certificate or the kept values of an authority leave open |
| `Executor.RunOne` | cli/src/plan/executor.rs:161-212 | a step is skipped, or attempted until one attempt succeeds or none is left |
| `Executor.RunSteps` | cli/src/plan/executor.rs:133-159 | the steps are run in order up to a failure or the stop |
| `Executor.Execute` | cli/src/plan/executor.rs:15-110 | direction, stores, package and stop are settled before any step; what the command did and how it ended |
| `ExecutorRuns.DispatchedExactly` | cli/src/plan/executor.rs:133-212 | an attempt is dispatched exactly when the plan runs this way, its stores, package and stop are settled, every step before it was skipped or succeeded, its own is not skipped, and the earlier attempts of it failed; it ends as the world answers |
| `ExecutorRuns.EveryDispatchIsPermitted` | cli/src/domain/plan.rs:37-44 | one-shot, destructive and interactive steps are dispatched at most once, others at most three times and again only after failing; a dry run dispatches only what is safe, once |
| `ExecutorRuns.IdempotentStepsAreRetried` | cli/src/domain/plan.rs:37-44 | live, an idempotent step that is not interactive is dispatched a second time exactly after a failure and a third after two, and never again |
| `ExecutorRuns.OthersAreTriedOnce` | cli/src/domain/plan.rs:144-150 | an interactive, one-shot or destructive step, and any step of a dry run, is dispatched once and no more |
| `ExecutorRuns.DispatchesArePrefix` | cli/src/plan/executor.rs:133-159 | before a dispatched step, every earlier one was dispatched to success or skipped |
| `ExecutorRuns.LogInOrder` | cli/src/plan/executor.rs:133-159 | dispatches follow the order of the plan, and of the attempts within a step |
| `ExecutorRuns.FailureIsLast` | cli/src/plan/executor.rs:189-212 | a step whose last attempt failed is the last dispatched, and the command fails |
| `ExecutorRuns.SuccessReachesTheStop` | cli/src/plan/executor.rs:342-374 | a successful command ended exactly at the last step of the kind given, or at the end of the plan |
| `ExecutorRuns.RunSucceedsExactly` | cli/src/plan/executor.rs:133-212 | the steps go well exactly when each one up to the stop is skipped or succeeds at an attempt it is allowed |
| `ExecutorRuns.CommandSucceedsExactly` | cli/src/plan/executor.rs:33-100 | a command succeeds exactly when there is nothing to do, or it can start, its steps up to the stop go well, and a teardown leaves no failure recorded |
| `ExecutorRuns.ForgetsExactlyAfterTeardown` | cli/src/plan/executor.rs:94-96 | the lab record is dropped exactly by a teardown that can start, whose steps up to the stop all go well, and that leaves no failure recorded |
| `ExecutorRuns.DryTeardownForgets` | cli/src/plan/executor.rs:94-96 | a dry run is no exception: it forgets exactly when the steps it does dispatch succeed at once |
| `ExecutorRuns.StoppedTeardownForgets` | cli/src/plan/executor.rs:94-96 | neither is one stopped early: it forgets on the same terms, with the steps past the stop never dispatched |
| `ClusterShape.Fixes` | cli/src/domain/cluster_shape.rs:204-223 | the loop and its sort give the fixes once each |
| `ClusterShape.FixesMean` | cli/src/domain/cluster_shape.rs:204-223 | a fix is listed exactly when some drifted field calls for it |
| `ClusterShape.CallsMean` | cli/src/domain/cluster_shape.rs:321-431 | which fix each changed field calls for, on the fields themselves: as many workers or servers as are missing, new nodes, a new loadbalancer, a rebuild for the version alone, and a new cluster for the provisioner, the distribution, the subnets, the network and a count that shrank |
| `ClusterShape.CheapestFirst` | cli/src/domain/cluster_shape.rs:215-222 | what interrupts nothing comes first, then the loadbalancer, the nodes, and a new cluster last |
| `ClusterShape.InPlaceMeans` | cli/src/domain/cluster_shape.rs:235-237 | in place exactly when something drifted and nothing that did needs a new cluster |
| `ClusterShape.ShowListIsInjective` | cli/src/domain/cluster_shape.rs:311-317 | shown lists tell apart lists whose elements do not hold the separator |
| `ClusterShape.SeparatorHidesAChange` | cli/src/domain/cluster_shape.rs:311-317 | an element holding the separator shows like two |
| `ClusterShape.CleanMeansSame` | cli/src/domain/cluster_shape.rs:321-431 | a clean report means the compared fields are the same, when texts can be told apart |
| `ClusterShape.ToldLists` | cli/src/domain/cluster_shape.rs:311-317 | a list shows like no other exactly when it has at most one element, and that one not the separator |
| `ClusterShape.ToldOptions` | cli/src/domain/cluster_shape.rs:307-309 | an option shows like no other exactly when it is set, and not to the word for unset |
| `ClusterShape.NothingIsHiddenExactlyWhenTold` | cli/src/domain/cluster_shape.rs:321-431 | a clean report rules out every change of a compared field exactly for the declarations all of whose lists and options are of that kind |
| `ClusterShape.NoDriftFromItself` | cli/src/domain/cluster_shape.rs:321-431 | a shape never drifts from itself |
| `ClusterShape.WorkersAloneMeans` | cli/src/domain/cluster_shape.rs:227-232 | workers to add, exactly when the worker count grew and nothing else differs, and as many as it grew by |
| `Convergence.Host.ConvergeExistingCluster` | cli/src/provision/mod.rs:318-391 | compare, adopt, add workers, repair in place, recreate or refuse, with what was done and recorded |
| `Convergence.Host.ConvergeK3dInPlace` | cli/src/provision/mod.rs:437-473 | the fixes are performed in order up to the first failure |
| `Convergence.Host.ReplaceK3dNodes` | cli/src/provision/mod.rs:475-530 | every node but the loadbalancer is replaced, one at a time, up to the first failure |
| `Convergence.Host.AdoptExistingCluster` | cli/src/provision/mod.rs:538-582 | without a record, the declaration is recorded when the live cluster agrees |
| `ConvergenceSafety.NeverPanics` | cli/src/provision/mod.rs:468 | the arm for a new cluster is never reached |
| `ConvergenceSafety.RefusedExactly` | cli/src/provision/mod.rs:318-391 | destruction is asked for, with the flag, and refused, without it, exactly when a k3d cluster's provisioner, distribution, subnet or network differs or a node count shrank, or anything at all differs for another provisioner; nothing has been touched then |
| `ConvergenceSafety.ConvergingTwiceIsOnce` | cli/src/provision/mod.rs:318-391 | after a run that left the cluster in place, another with the same declaration does nothing |
| `ConvergenceSafety.RecordedExactly` | cli/src/provision/mod.rs:318-391 | the record becomes the declaration exactly when a k3d cluster that differs is repaired, nodes added and replaced as the changed fields ask, checked and written, or an unrecorded one is adopted; in every other case, failures and refusals among them, it stays as it was |
| `ConvergenceSafety.ActionsAreDue` | cli/src/provision/mod.rs:343-379 | in place, as many agents and servers are added as are missing, once, and each node is replaced when what it was started with or the ports have changed; nothing else is done, and all of it when the run succeeds |
| `ConvergenceSafety.AddedBeforeReplaced` | cli/src/provision/mod.rs:437-478 | nodes are added before any is replaced |
| `ConvergenceSafety.TouchedOnlyInPlace` | cli/src/provision/mod.rs:343-379 | a cluster is acted on only if it is k3d, has a record it differs from, and no changed field needs a new cluster |
| `ConvergenceSafety.LoadBalancerIsNeverReplaced` | cli/src/provision/mod.rs:507-512 | nodes are added, or replaced if they are not the loadbalancer |
| `ConvergenceSafety.DriftedPortsAreRecordedUnapplied` | cli/src/provision/mod.rs:368-379 | the declared ports are recorded as built, on a loadbalancer left as it was, exactly when they differ from the recorded ones, some shown field differs and the cluster is repaired |
| `ConvergenceSafety.PortsAloneAreRecordedUnapplied` | cli/src/provision/mod.rs:368-379 | so they are when the ports are all that drifted |
| `Summary.SpliceBlocks` | cli/src/docs/summary.rs:86-114 | the peeking loop gives the spliced lines |
| `Summary.SpliceText` | cli/src/docs/summary.rs:86-121 | the text split, spliced, joined and closed as it was |
| `Summary.SpliceIsIdempotent` | cli/src/docs/summary.rs:86-114 | on lines, splicing a second time changes nothing, whatever the lines and the pages |
| `Summary.SplicePreservesTheRest` | cli/src/docs/summary.rs:86-114 | the lines outside the replaced subtrees all stay, in order |
| `SummaryLinks.OtherLinesStay` | cli/src/docs/summary.rs:86-114 | every line that is blank or does not start with a space stays, in order, and none is added |
| `SummaryLinks.AnchorReplacesItsRun` | cli/src/docs/summary.rs:104-112 | under an anchor the whole run of lines that start with a space and are not blank gives way to the block, and nothing behind it |
| `Summary.PageOrderDoesNotMatter` | cli/src/docs/summary.rs:72-84 | the order the pages come in does not matter |
| `SummaryLinks.TitledExactly` | cli/src/docs/summary.rs:55-70 | the pages with a link are the five with a place of their own, the commands, and each floe under its own name, at their depths |
| `SummaryLinks.UnderMeans` | cli/src/docs/summary.rs:86-112 | a line has a block exactly when it is one of the two anchors, and the block links the titled pages of its group and no others |
| `SummaryLinks.PagesInOrder` | cli/src/docs/summary.rs:72-84 | placed pages come in the order of their places, before all others, and those by name |
| `SummaryLinks.LinkReadsBack` | cli/src/docs/summary.rs:35-50 | the link of a page is parsed back to its title and path exactly when the title holds no `](` and the page no closing parenthesis |
| `SummaryText.TextIsStableExactlyWithoutReturns` | cli/src/docs/summary.rs:86-121 | a text that ends in a newline splices to one that splices to itself exactly when none of its lines outside the replaced subtrees ends in a carriage return |
| `SummaryText.OpenTextIsStable` | cli/src/docs/summary.rs:116-121 | so does one without, the last of those lines excepted when nothing is put behind it |
| `SummaryText.DoubledReturnsFade` | cli/src/docs/summary.rs:86-121 | a line closed by two carriage returns loses one on each pass |

## Left out

- Subprocesses and the network (docker, k3d, kubectl, sops, crane, nix): nondeterministic outcomes where a decision depends on them.
- Certificates and randomness: the draws of a minting run are given, within the width and alphabet of each generator.
- Terminal output, argument parsing, error texts, and the descriptions of problems and drift.
- The values behind the step kinds' tables: the executor takes them as inputs.
- `allow_null_optional`, `with_standard_fields`, `int_or_string` and `suffix_for` of the Python passes, and the files they write.
- The resource and index sections of the emitted module, and what a resource derives from its kind (`api_version`, `nix_path`, `namespaced`).
- The value of a description of several lines: it is read back as it stands between its quotes, margins and escapes included, because `escape_nix_indented` does not write single quotes so that Nix reads them back.
- Option defaults other than `null`: the converter writes no other.
- How Nix merges definitions from several modules, and values that carry the module system's own markers (`_type`): `Admits` reads a type on one plain value.
- JSON Schema keywords that hold further schemas: `items` as a list, `patternProperties`, `contains`, `if` and the like. Keywords with a plain value, `pattern` and `minimum` among them, may assert anything (`JsonSchema.PlainHold`).
- That draft 2020-12 counts 1.0 as an integer: `integer` is read as in draft 4, on which OpenAPI 2.0 builds.
- SchemaSoundness.ConversionOverapproximates: its hypotheses are sufficient; each excluded kind of schema has a witness, but not every schema excluded is narrowed.
- SchemaExactness.ConversionIsExact: `oneOf`, `not` and closed objects are excluded, because the types admit more than those accept; null is left to `SchemaExactness.OptionsMean`.
- Tightening.StrictOnlyTightens: its hypotheses are sufficient; each is lost on some schema (`Loosening`), but not every schema excluded is loosened.
- SchemaAlternatives.KindsTellOverapproximate: looks through one reference, so an alternative that refers to a reference or a combination counts as of any kind.
- How the mirror stores its copies: a tag list shows a name whichever registry it was taken from, and a copy once held is kept.
- Warm.ReportWarmResults: does not model the sort of the images that are not mirrored, which only orders the printed list.
- The text of image references (`ImageRef::parse`): cache warming starts from parsed references.
- Trust.EnsureBundle: takes the contents of the files, so finding the system roots and replacing the bundle on disk are not modelled.
- `plan_cleanup`, which lists what `lab cleanup` would remove.
- `--example` minting, which prints templates, and loading or encrypting sops stores.
- ShellText.LineAssigns: reads assignments in the quoting the printer uses, not the whole shell grammar; a NUL in a value is not treated apart.
- Executor.RunOne: does not model the pauses between attempts.
- Executor.Execute: which failures a teardown records along the way is one answer of the world.
- How a cluster's shape is read from its specification (`ClusterShape::of`), the version arithmetic of `upgrade_is_one_step`, and what a live cluster answers (`describe_cluster_drift`, `confirm_converged`): given by the world.
- Whether a recorded shape is the live cluster's: adoption and repair record fields nobody observed, so it is not claimed.
- The sections `parse` of the documentation summary keeps: only its links are read back.
