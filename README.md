# typeformer transforms, modelled in Dafny

typeformer turns a TypeScript code base written with `namespace` blocks into one written with
ES modules. It does this with a chain of compiler transforms run over each project of a build.
This project models the core of those transforms and proves properties of the model:

- **Namespace stripping** (`StripNamespaces`): a top-level `namespace a.b.c { S }` becomes `S`.
  The file imports `a` from `<root>/a`, which is synthesised only when some file declares
  `namespace a` itself, and the file is recorded as a contributor of `<root>/a.b.c.ts`. Three path-keyed maps are shared by every project of a build
  (`Registry`), and each transformation context keeps its own set of required imports
  (`Stripper`). When the build completes, one re-export file is made per recorded namespace file.
- **Config rewriting** (`ManifestRewrite`): in each project's `tsconfig.json`, `outFile` becomes
  `outDir`, `prepend` is dropped, and the new namespace files are appended to `files`.
- **Import inlining** (`InlineImports`): `ns.X` becomes `X` when `X` does not already resolve and
  `ns` is a namespace import. The names used are collected into new `import { ... }` statements,
  and unused namespace imports are pruned.
- **Unused namespace import pruning** (`Pruner`).
- **Explicit qualification** (`Explicitify`): an identifier that refers to a namespace member is
  replaced by the checker's fully qualified name for it.
- **Paths** (`Paths`, `PathMaps`): the POSIX subset of Node's `path` that the transforms use,
  `getTSStyleRelativePath`, and the normalising map and set.
- **Logger** (`Logging`): the server logger with its sequence numbers, groups and fixed-width
  prefixes.

Support modules:

- `Wrappers` holds `Option`.
- `Text` holds the string operations.
- `Ordered` holds insertion-ordered sets as sequences.
- `Syntax` holds the syntax-tree datatype.
- `Checker` holds the type-checker queries. They are an uninterpreted oracle: a record of
  functions over abstract symbols.

JavaScript `Map` and `Set` iterate in insertion order. They are modelled as a sequence of keys
plus a map (`PathMap`), or as a duplicate-free sequence (`PathSet`, `AddOnce`).

`String.prototype.replace` with a string pattern replaces only the first occurrence. It is
modelled as `ReplaceFirst`.

## Model

| member | source | states |
|---|---|---|
| Paths.Normalize | src/transforms/pathUtil.ts:3 | `path.normalize` never returns the empty string |
| Paths.NormalizeShape | src/transforms/pathUtil.ts:3 | normalising a non-empty path gives the folded segments in normal form, with the leading `/` and trailing `/` kept; no segments gives `/`, `./` or `.` |
| Paths.NormalizeIdempotent | src/transforms/stripNamespaces.ts:5-24 | normalising twice equals normalising once, so a normalised key addresses its own entry |
| Paths.ResolveNormalize | src/transforms/pathUtil.ts:3 | an absolute path and its normalisation resolve to the same segments |
| Paths.Dirname | src/transforms/pathUtil.ts:3 | `path.dirname` is never empty and keeps a path absolute |
| Paths.Basename | src/transforms/stripNamespaces.ts:55 | `path.basename` contains no separator |
| Paths.Join | src/transforms/stripNamespaces.ts:55 | `path.join` is never empty |
| Paths.JoinResolves | src/transforms/stripNamespaces.ts:55 | resolving `d` joined with `r` folds the pieces of `r` onto the segments of `d` |
| Paths.RelativeIsNormal | src/transforms/pathUtil.ts:3 | a non-empty `path.relative` result is already normal, has no backslash, and splits into the relative segments |
| Paths.FoldRelativeSegments | src/transforms/pathUtil.ts:3 | climbing out of `from` and descending along the relative segments lands on `to` |
| Paths.TsStyleRelativePath | src/transforms/pathUtil.ts:2-8 | the result starts with "." and contains no backslash |
| Paths.TsStyleRelativePathPrefixed | src/transforms/pathUtil.ts:4-7 | when the normalised relative path does not start with ".", the result is "./" followed by it, with backslashes turned into `/` |
| Paths.TsStyleRelativePathDotted | src/transforms/pathUtil.ts:4-7 | when the normalised relative path starts with ".", only the backslashes change |
| Paths.TsStyleSamePlace | src/transforms/pathUtil.ts:3-7 | an empty relative path means both ends resolve alike, and the result is "." |
| Paths.TsStyleRelativePathRoundTrip | src/transforms/pathUtil.ts:2-8 | joining the directory of an absolute `from` with the result resolves back to `to` |
| PathMaps.PathMap.Get | src/transforms/stripNamespaces.ts:9-11 | `get` finds an entry exactly when `has` holds for the key |
| PathMaps.PathMap.Set | src/transforms/stripNamespaces.ts:12-14 | `set` keeps the map's keys normalised and distinct |
| PathMaps.SetAdd | src/transforms/stripNamespaces.ts:18-20 | `add` keeps the set's members normalised and distinct |
| PathMaps.SameNormalFormSameEntry | src/transforms/stripNamespaces.ts:5-24 | two spellings with the same normal form give the same `has`, `get`, `set` and `add` |
| PathMaps.SetThenGet | src/transforms/stripNamespaces.ts:9-14 | after `set(k, v)`, `get` of a key with k's normal form gives `v`, other keys are unchanged, and a new key is appended to the iteration order |
| PathMaps.SetTwice | src/transforms/stripNamespaces.ts:12-14 | a second `set` of the same key overwrites the first |
| StripNamespaces.FindConfig | src/transforms/stripNamespaces.ts:51 | the config found holds the namespace file; no config is found only when none holds it |
| StripNamespaces.RegisterKeepsConsistent | src/transforms/stripNamespaces.ts:165 | registering keeps the maps consistent (every namespace file traced to a config) and the file is then in the namespace file's set |
| StripNamespaces.NewNamespaceAssociated | src/transforms/stripNamespaces.ts:182-189 | a new namespace file joins its config's extra files, so `find(...)!` at line 51 succeeds for it |
| StripNamespaces.AddNamespaceGrows | src/transforms/stripNamespaces.ts:184-189 | adding a namespace file never loses the config association of another file |
| StripNamespaces.Registry.GetOrCreateNamespaceSet | src/transforms/stripNamespaces.ts:174-191 | an existing namespace file returns its set and changes nothing; a new one gets an empty set and joins its config's extra files |
| StripNamespaces.JoinConfigSet | src/transforms/stripNamespaces.ts:184-189 | the config's set is created when missing, and the namespace file is added to it |
| StripNamespaces.Registry.CreateNamespaceSet | src/transforms/stripNamespaces.ts:182-189 | the new empty set is stored and the namespace file is added to its config's set, keeping the maps consistent |
| StripNamespaces.Registry.Register | src/transforms/stripNamespaces.ts:165 | the namespace-file map gains the file in the namespace file's set; the extra-files map is updated as by `getOrCreateNamespaceSet`; config dependencies are unchanged |
| StripNamespaces.Registry.SetConfigDeps | src/transforms/stripNamespaces.ts:122-125 | with references, the config's dependency set is their paths without duplicates; without references, nothing changes |
| StripNamespaces.Registry.GetStripNamespacesTransformFactory | src/transforms/stripNamespaces.ts:119-127 | records the project's references and returns the directory of the config file as the project root |
| StripNamespaces.RegisteredDeps | src/transforms/stripNamespaces.ts:54-56 | a reference is kept exactly when it registered a namespace file with the same base name |
| StripNamespaces.DependencyExportsOfRegistered | src/transforms/stripNamespaces.ts:53-64 | the dependency re-exports are exactly one export per registered reference, in reference order |
| StripNamespaces.DependencyReexports | src/transforms/stripNamespaces.ts:53-64 | the loop over project references yields the dependency re-exports |
| StripNamespaces.LocalReexports | src/transforms/stripNamespaces.ts:66-73 | the loop over the namespace's registered files yields one re-export per file, in set order |
| StripNamespaces.NamespaceFile | src/transforms/stripNamespaces.ts:49-79 | the synthetic file carries the namespace file's name |
| StripNamespaces.Registry.CreateSourceFile | src/transforms/stripNamespaces.ts:49-79 | the synthetic file is the dependency re-exports (when the config has dependencies) followed by the local re-exports |
| StripNamespaces.Registry.CreateSourceFilesForMap | src/transforms/stripNamespaces.ts:47-82 | one synthetic file per namespace file, in map order |
| StripNamespaces.Registry.OnTransformComplete | src/transforms/stripNamespaces.ts:36-44 | there are no additional files exactly when no namespace file was registered; otherwise there is one file per namespace file |
| StripNamespaces.Chain | src/transforms/stripNamespaces.ts:156-159 | the walk down a namespace chain stops at a body that is not a namespace declaration with a body |
| StripNamespaces.WalkChain | src/transforms/stripNamespaces.ts:154-159 | the `while` loop collects the chain's names and its innermost body |
| StripNamespaces.ChainOfNest | src/transforms/stripNamespaces.ts:154-159 | walking the dotted form `namespace a.b.c { S }` (each name a declaration whose body is the next) gives back the names `a, b, c` and the block `S` |
| StripNamespaces.StripNest | src/transforms/stripNamespaces.ts:153-166 | a dotted `namespace a.b.c { S }` is replaced by exactly `S`; `a` is imported and `a.b.c` is the namespace path |
| StripNamespaces.BracedNestingStripsOneLevel | src/transforms/stripNamespaces.ts:153-166 | `namespace a { namespace b { S } }` is stripped to `namespace b { S }` under the path `a`: the walk does not enter a block |
| StripNamespaces.StripLeavesAlone | src/transforms/stripNamespaces.ts:153-169 | a statement that is not a namespace, has a string name, has no body, or ends in a non-block body is kept as it is |
| StripNamespaces.RequiredAfter | src/transforms/stripNamespaces.ts:163 | the required imports stay a set: each name at most once |
| StripNamespaces.RequiredAfterExtends | src/transforms/stripNamespaces.ts:163 | required imports only grow, and earlier entries keep their places |
| StripNamespaces.RequiredImportShape | src/transforms/stripNamespaces.ts:141-147 | each required import is `import * as a` of a path starting with "." with no backslash |
| StripNamespaces.Stripper.constructor | src/transforms/stripNamespaces.ts:128-131 | each transformation context starts with no required imports |
| StripNamespaces.Stripper.VisitStatements | src/transforms/stripNamespaces.ts:152-170 | a strippable statement becomes its inner statements, adds its first name to the required imports and registers the file; any other statement is returned unchanged and nothing changes |
| StripNamespaces.Stripper.GetRequiredImports | src/transforms/stripNamespaces.ts:138-150 | one namespace import per required import, in insertion order |
| StripNamespaces.Stripper.TransformSourceFile | src/transforms/stripNamespaces.ts:132-136 | the file becomes the required imports followed by the stripped statements; the maps are those after registering every stripped statement |
| ManifestRewrite.FileLiterals | src/transforms/stripNamespaces.ts:99-102 | one string literal per extra file, each starting with "." and holding no backslash |
| ManifestRewrite.CollectFileLiterals | src/transforms/stripNamespaces.ts:99-102 | the `forEach` loop collects exactly the new file literals |
| ManifestRewrite.VisitProperty | src/transforms/stripNamespaces.ts:92-116 | visiting a property yields at most one property: none when it is deleted |
| ManifestRewrite.VisitCleans | src/transforms/stripNamespaces.ts:92-116 | after a successful rewrite no `prepend` or `outFile` remains anywhere, except inside extended `files` arrays of a config that owns namespace files |
| ManifestRewrite.VisitIdentity | src/transforms/stripNamespaces.ts:92-116 | a config with no `prepend`, no `outFile`, and either no namespace files or no `files`, comes back unchanged |
| ManifestRewrite.VisitSucceeds | src/transforms/stripNamespaces.ts:95 | the rewrite can only throw at an `outFile` |
| ManifestRewrite.OutFileWithoutTextThrows | src/transforms/stripNamespaces.ts:95 | an `outFile` whose value is not a string or numeric literal makes the rewrite throw |
| ManifestRewrite.OutFileBecomesOutDir | src/transforms/stripNamespaces.ts:95 | `outFile` becomes `outDir`, whose value is the old one without its first ".js" |
| ManifestRewrite.PrependDeleted | src/transforms/stripNamespaces.ts:96 | a `prepend` property is deleted |
| ManifestRewrite.FilesExtended | src/transforms/stripNamespaces.ts:97-111 | a `files` array keeps its entries and gains one entry per owned namespace file; each entry starts with "." and has no backslash, and for an absolute config path it resolves back to that file |
| ManifestRewrite.FilesVisitedWithoutNamespaces | src/transforms/stripNamespaces.ts:98-115 | without namespace files, a `files` array is only visited and keeps its length |
| ManifestRewrite.TransformConfigFile | src/transforms/stripNamespaces.ts:87-90 | the rewritten config keeps its file name |
| Pruner.GetNamespaceImports | src/transforms/removeUnusedNamespaceImports.ts:25-32 | only namespace imports of the input are selected |
| Pruner.GetNamespaceImportsComplete | src/transforms/removeUnusedNamespaceImports.ts:25-32 | every namespace import of the input is selected |
| Pruner.GetNamespaceImportsAppend | src/transforms/removeUnusedNamespaceImports.ts:25-32 | the selection distributes over concatenation, keeping the order |
| Pruner.AnyContainsReferenceToIff | src/transforms/removeUnusedNamespaceImports.ts:21 | `forEachChild` finds a reference exactly when some child contains one |
| Pruner.RightOfAccessIsNoReference | src/transforms/removeUnusedNamespaceImports.ts:18 | the right side of `x.name` is not a use of `name` |
| Pruner.LeftOfAccessIsReference | src/transforms/removeUnusedNamespaceImports.ts:18 | the left side of `name.x` is a use of `name` |
| Pruner.RemoveUnusedNamespaceImports | src/transforms/removeUnusedNamespaceImports.ts:3-13 | the result is no longer than the input and equals it when there are no namespace imports |
| Pruner.RemoveUnusedIsSubsequence | src/transforms/removeUnusedNamespaceImports.ts:8-12 | the result is the input with exactly the unused namespace imports removed, in order |
| Pruner.OnlyNamespaceImportsDropped | src/transforms/removeUnusedNamespaceImports.ts:12 | a statement that is not a namespace import is always kept |
| Pruner.OwnStatementExcluded | src/transforms/removeUnusedNamespaceImports.ts:10 | an import's own binding contains its name, but the import itself is left out of the search, so an import used nowhere else is removed |
| Explicitify.VisitEachChild | src/transforms/explicitify.ts:55 | visiting the children keeps the node's kind and its non-node fields |
| Explicitify.TransformSourceFile | src/transforms/explicitify.ts:31-34 | the file keeps its name and its number of statements |
| Explicitify.VisitAllPointwise | src/transforms/explicitify.ts:33 | each statement is visited on its own |
| Explicitify.OnlyIdentifiersReplaced | src/transforms/explicitify.ts:39-55 | a node that is not an identifier is rebuilt from its visited children |
| Explicitify.IneligibleIdentifierKept | src/transforms/explicitify.ts:40-42 | a declaration name, or the right side of a property access or qualified name, is never replaced |
| Explicitify.DeclarationNameKept | src/transforms/explicitify.ts:40 | a declaration keeps its name |
| Explicitify.RightOfAccessKept | src/transforms/explicitify.ts:41-42 | the right side of `x.y` is kept |
| Explicitify.ReplacementConditions | src/transforms/explicitify.ts:39-52 | an identifier is replaced only when it is eligible, its symbol's parent is declared by a namespace, and the entity name is qualified; the replacement is the entity name under a qualified name, type reference or type query, and the expression otherwise |
| Explicitify.ReplacementTaken | src/transforms/explicitify.ts:39-52 | when all of those conditions hold, the identifier is replaced by that node |
| Explicitify.NothingToReplaceIsIdentity | src/transforms/explicitify.ts:36-56 | a tree with nothing to replace comes back unchanged |
| InlineImports.VisitEachChild | src/transforms/inlineImports.ts:65 | a node rebuilt from its visited children keeps its kind and its non-node fields |
| InlineImports.MatchingImport | src/transforms/inlineImports.ts:58 | the import found binds the symbol; no import is found only when none binds it |
| InlineImports.ImportDeclarationUntouched | src/transforms/inlineImports.ts:33-35 | import declarations are neither rewritten nor visited |
| InlineImports.InlinedOnlyWhen | src/transforms/inlineImports.ts:39-62 | `ns.X` is replaced by `X` only when `X` does not resolve and `ns` is bound by a namespace import; the claim records that import's specifier and `X` |
| InlineImports.InlinedWhen | src/transforms/inlineImports.ts:39-62 | when those conditions hold, `ns.X` becomes `X` |
| InlineImports.NotInlinedVisitsChildren | src/transforms/inlineImports.ts:65 | any other node is rebuilt from its visited children |
| InlineImports.ExcludeGlobalsExactly | src/transforms/inlineImports.ts:54 | globals are excluded exactly for `Symbol` and `Node` |
| InlineImports.ClaimsFromImports | src/transforms/inlineImports.ts:58-61 | every synthetic import names a non-empty identifier from the specifier of an existing namespace import |
| InlineImports.SyntheticImports.Add | src/transforms/inlineImports.ts:68-72 | `addSyntheticImport` adds the specifier once, in first-use order, and adds the name once to its set |
| InlineImports.ReplayStep | src/transforms/inlineImports.ts:68-72 | one more claim turns the map for the claims into the map for the claims plus that claim |
| InlineImports.NamesOfMembers | src/transforms/inlineImports.ts:68-72 | a specifier's names are exactly the names claimed for it, each once |
| InlineImports.SpecifiersOfMembers | src/transforms/inlineImports.ts:68-72 | the specifiers are exactly those claimed |
| InlineImports.AddAll | src/transforms/inlineImports.ts:58-72 | adding the claims in traversal order leaves the map that the claims define |
| InlineImports.NamedImportsFor | src/transforms/inlineImports.ts:22-29 | one named import per specifier, in map order, importing that specifier's names |
| InlineImports.NewImportStatements | src/transforms/inlineImports.ts:21-29 | the `forEach` loop builds exactly those named imports |
| InlineImports.TransformSourceFile | src/transforms/inlineImports.ts:17-30 | the file becomes the pruned list of the new named imports followed by the visited statements |
| Logging.PadStringRight | src/logger.ts:16-18 | the result has the padding's length; a shorter string is at its start followed by the start of the padding; a longer string is cut |
| Logging.Prefix | src/logger.ts:48 | a message prefix is always ten characters |
| Logging.PrefixShowsSequenceNumber | src/logger.ts:48 | below 100000 the prefix reads the type, a space and the sequence number's digits, then spaces |
| Logging.Logger.constructor | src/logger.ts:10-14 | a new logger numbers from 0, outside a group, with nothing written |
| Logging.Logger.Msg | src/logger.ts:45-55 | one line is written, stamped, and prefixed with the type and the pre-increment number (always, while `firstInGroup` holds); the number increases by one outside a group and stays inside one |
| Logging.Logger.Perftrc | src/logger.ts:23-25 | a `Perf` message |
| Logging.Logger.Info | src/logger.ts:26-28 | an `Info` message |
| Logging.Logger.Err | src/logger.ts:29-31 | an `Err` message |
| Logging.Logger.StartGroup | src/logger.ts:32-35 | sets `inGroup` and `firstInGroup` and changes nothing else |
| Logging.Logger.EndGroup | src/logger.ts:36-38 | clears `inGroup` only, so `firstInGroup` stays set and every later message keeps its prefix |
| Logging.Logger.LoggingEnabled | src/logger.ts:39-41 | logging is never enabled |
| Logging.Logger.HasLevel | src/logger.ts:42-44 | no level is enabled, as `loggingEnabled` says |
| Logging.Logger.GetLogFileName | src/logger.ts:20-22 | the log file name is the four-letter "none" |
| Text.ReplaceFirst | src/transforms/stripNamespaces.ts:61 | `replace` with a string pattern changes only the first occurrence |
| Text.DecimalRoundTrip | src/logger.ts:48 | reading back the digits of `toString()` gives the number |

## Left out

- Project and solution plumbing: src/index.ts, src/cli.ts and src/directorySnapshot/index.ts are not part of this model. The solution builder, file writes, config copying, diagnostics and argument handling are I/O.
- Type checking: `getSymbolAtLocation`, `resolveName`, `symbolToEntityName` and `symbolToExpression` are uninterpreted functions of a `TypeChecker` value. A symbol is an abstract number.
- Node factories and printing: nodes are datatype values. Source text, positions beyond an identity number, comments and the `Synthesized` flag are not modelled.
- Node's `path`: only the POSIX forms of `normalize`, `relative`, `dirname`, `basename` and `join` are modelled. `path.resolve` takes the working directory as "/". There are no Windows drive letters. Backslashes are ordinary characters, as they are in POSIX paths.
- Paths.TsStyleRelativePathRoundTrip: requires an absolute `from` and a `to` without backslashes. With a relative `from` the result depends on the working directory, and a backslash in `to` is rewritten to `/`.
- Logger output: `console.log` is the `output` sequence. `nowString()` reads the clock, so it is a parameter (`now`) of every message.
- `close()` (src/logger.ts:19) does nothing. `Logging.Logger.Close` has an empty body and no contract.
- JavaScript numbers: the logger's `seq` is an unbounded `nat`, so precision loss past 2^53 is not modelled.
- Explicitify.TransformSourceFile: states that the shape is kept and, through the lemmas, when identifiers are replaced. The printed form of the checker's qualified names is not modelled.
- `symbolToExpression` may return `undefined` in the compiler. Here it always returns a node.
- InlineImports: `import { a as b }` specifiers never arise, because the transform creates only plain specifiers.
- ManifestRewrite: a negative number (`-1`) is a prefix-unary expression in the compiler, and an identifier has text there. Both are `JKeyword` here, so an `outFile` with such a value throws in the model.
- ManifestRewrite: a config file is one JSON value. Comments and trailing commas of `tsconfig.json` are not modelled.
- Explicitly braced nesting, `namespace a { namespace b { S } }`, is stripped one level only: the outer body is a block, so the walk stops there and `namespace b { S }` stays a statement (`StripNamespaces.BracedNestingStripsOneLevel`).
- Pruner: references are judged by an identifier's position in the tree, not by its `parent` pointer. An identifier the inliner substitutes keeps its old access parent in the compiler, so the source does not count it as a reference. That cannot change a result, because `X` is inlined only when it does not resolve, so no namespace import named `X` exists.
- Aliasing: `getOrCreateNamespaceSet(...).add(...)` mutates a set shared through the map. The model writes the new set back under the same key (`Registry.Register`), which is equivalent because nothing else holds the set.
- Behaviour described for the namespace stage that the code does not have is left out, and the model follows the code:
  - registering every prefix of a namespace path;
  - wrapping ambient or merged declarations in global augmentations;
  - comment re-attachment;
  - the empty-export marker;
  - child-segment import and re-export pairs;
  - running the pruner inside the stripper;
  - shadowing checks in the pruner;
  - conflict checks between claims for different specifiers.
- `Normalize`, `Relative` and `TsStyleRelativePath` are each defined through a function with a `delay` argument (`Normalized`, `Related`, `TsStyled`). A lemma (`NormalizeDef`, `RelativeDef`, `TsStyleDef`) states that each equals its definition. This changes no value; it only controls when the definition is expanded.
