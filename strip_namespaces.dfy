/**
 * The namespace stripper: a top-level `namespace a.b.c { S }` becomes the statements `S`,
 * the file gets `import * as a from "<root>/a"`, and the file is recorded as a contributor
 * of the namespace file `<root>/a.b.c.ts`. Once every project is transformed, one
 * re-export file is made per recorded namespace file.
 *
 * The bookkeeping lives in three `NormalizedPathMap`s shared by every project of a build
 * (`Registry`); each transformation context has its own set of required imports
 * (`Stripper`).
 */
module StripNamespaces {
  import opened Wrappers
  import opened Text
  import opened Ordered
  import opened Paths
  import opened Syntax
  import opened PathMaps

  // ---------------------------------------------------------------------------
  // The three maps and their invariant

  /** `[...extraFilesFieldMembers.entries()].find(([_, addedFiles]) => addedFiles.has(filename))`. */
  function FindConfig(keys: seq<string>, entries: map<string, PathSet>, filename: string): (r: Option<string>)
    ensures r.Some? ==> r.value in keys && r.value in entries && SetHas(entries[r.value], filename)
    ensures r.None? ==> forall c :: c in keys && c in entries ==> !SetHas(entries[c], filename)
  {
    if keys == [] then None
    else if keys[0] in entries && SetHas(entries[keys[0]], filename) then Some(keys[0])
    else FindConfig(keys[1..], entries, filename)
  }

  function AssociatedConfig(extras: PathMap<PathSet>, filename: string): Option<string> {
    FindConfig(extras.keys, extras.entries, filename)
  }

  /** Every set of the map holds normalised paths, each once. */
  ghost predicate WellFormedSets(m: PathMap<PathSet>) {
    forall c :: c in m.entries ==> AllNormal(m.entries[c]) && Distinct(m.entries[c])
  }

  /** Every namespace file is listed in the extra files of some config. */
  ghost predicate Associated(nsFiles: PathMap<PathSet>, extras: PathMap<PathSet>) {
    forall k :: k in nsFiles.keys ==> AssociatedConfig(extras, k).Some?
  }

  /**
   * The maps' invariant: keys are normalised, sets hold normalised paths, and every
   * namespace file can be traced to its config, so the `find(...)!` that looks the config
   * up never fails.
   */
  ghost predicate Consistent(nsFiles: PathMap<PathSet>, extras: PathMap<PathSet>) {
    && nsFiles.Valid()
    && extras.Valid()
    && WellFormedSets(nsFiles)
    && WellFormedSets(extras)
    && Associated(nsFiles, extras)
  }

  /** `getOrCreateNamespaceSet(...).add(fileName)`, on the namespace-file map. */
  function AddFile(nsFiles: PathMap<PathSet>, namespaceFilePath: string, fileName: string): PathMap<PathSet> {
    nsFiles.Set(namespaceFilePath, SetAdd(nsFiles.Get(namespaceFilePath).GetOr([]), fileName))
  }

  /** `getOrCreateNamespaceSet`, on the extra-files map: a new namespace file joins its config's set. */
  function AddNamespace(nsFiles: PathMap<PathSet>, extras: PathMap<PathSet>, namespaceFilePath: string, configFilePath: string): PathMap<PathSet> {
    if nsFiles.Has(namespaceFilePath) then extras
    else extras.Set(configFilePath, SetAdd(extras.Get(configFilePath).GetOr([]), namespaceFilePath))
  }

  lemma SetAddWellFormed(s: PathSet, x: string)
    requires AllNormal(s) && Distinct(s)
    ensures AllNormal(SetAdd(s, x)) && Distinct(SetAdd(s, x))
  {
    NormalizeIdempotent(x);
  }

  lemma SetKeepsWellFormed(m: PathMap<PathSet>, key: string, v: PathSet)
    requires WellFormedSets(m) && AllNormal(v) && Distinct(v)
    ensures WellFormedSets(m.Set(key, v))
  {
  }

  /** The set a path map holds for `key`, or the empty set. */
  lemma GetOrEmptyWellFormed(m: PathMap<PathSet>, key: string)
    requires WellFormedSets(m)
    ensures AllNormal(m.Get(key).GetOr([])) && Distinct(m.Get(key).GetOr([]))
  {
  }

  /** A config's set only grows when a namespace file is added to the extra-files map. */
  lemma {:induction false} AddNamespaceGrows(nsFiles: PathMap<PathSet>, extras: PathMap<PathSet>, p: string, c: string, k: string)
    requires extras.Valid()
    ensures AddNamespace(nsFiles, extras, p, c).Valid()
    ensures AssociatedConfig(extras, k).Some? ==> AssociatedConfig(AddNamespace(nsFiles, extras, p, c), k).Some?
  {
    var extras' := AddNamespace(nsFiles, extras, p, c);
    if AssociatedConfig(extras, k).Some? && !nsFiles.Has(p) {
      var c0 := AssociatedConfig(extras, k).value;
      assert c0 in extras'.keys && c0 in extras'.entries;
      assert SetHas(extras'.entries[c0], k);
    }
  }

  /** A new namespace file can be traced to the config it was added for. */
  lemma NewNamespaceAssociated(nsFiles: PathMap<PathSet>, extras: PathMap<PathSet>, p: string, c: string)
    requires extras.Valid() && !nsFiles.Has(p)
    ensures AssociatedConfig(AddNamespace(nsFiles, extras, p, c), Normalize(p)).Some?
  {
    NormalizeIdempotent(p);
    var extras' := AddNamespace(nsFiles, extras, p, c);
    var cn := Normalize(c);
    assert cn in extras'.keys && cn in extras'.entries;
    assert SetHas(extras'.entries[cn], Normalize(p));
  }

  lemma AddNamespaceAssociates(nsFiles: PathMap<PathSet>, extras: PathMap<PathSet>, p: string, c: string, v: PathSet)
    requires nsFiles.Valid() && extras.Valid() && Associated(nsFiles, extras)
    ensures Associated(nsFiles.Set(p, v), AddNamespace(nsFiles, extras, p, c))
  {
    var extras' := AddNamespace(nsFiles, extras, p, c);
    forall k | k in nsFiles.Set(p, v).keys
      ensures AssociatedConfig(extras', k).Some?
    {
      if k in nsFiles.keys {
        AddNamespaceGrows(nsFiles, extras, p, c, k);
      } else {
        NewNamespaceAssociated(nsFiles, extras, p, c);
      }
    }
  }

  lemma AddNamespaceWellFormed(nsFiles: PathMap<PathSet>, extras: PathMap<PathSet>, p: string, c: string)
    requires extras.Valid() && WellFormedSets(extras)
    ensures AddNamespace(nsFiles, extras, p, c).Valid() && WellFormedSets(AddNamespace(nsFiles, extras, p, c))
  {
    if !nsFiles.Has(p) {
      GetOrEmptyWellFormed(extras, c);
      SetAddWellFormed(extras.Get(c).GetOr([]), p);
      SetKeepsWellFormed(extras, c, SetAdd(extras.Get(c).GetOr([]), p));
    }
  }

  /**
   * Registering a file keeps the invariant, and afterwards the namespace file is in the
   * map with the file in its set.
   */
  lemma RegisterKeepsConsistent(nsFiles: PathMap<PathSet>, extras: PathMap<PathSet>, p: string, c: string, f: string)
    requires Consistent(nsFiles, extras)
    ensures var nsFiles' := AddFile(nsFiles, p, f);
      && Consistent(nsFiles', AddNamespace(nsFiles, extras, p, c))
      && nsFiles'.Has(p) && SetHas(nsFiles'.Get(p).value, f)
  {
    var before := nsFiles.Get(p).GetOr([]);
    GetOrEmptyWellFormed(nsFiles, p);
    SetAddWellFormed(before, f);
    SetKeepsWellFormed(nsFiles, p, SetAdd(before, f));
    AddNamespaceWellFormed(nsFiles, extras, p, c);
    AddNamespaceAssociates(nsFiles, extras, p, c, SetAdd(before, f));
  }

  /** Creating the empty set of a new namespace file keeps the invariant. */
  lemma EmptySetKeepsConsistent(nsFiles: PathMap<PathSet>, extras: PathMap<PathSet>, p: string, c: string)
    requires Consistent(nsFiles, extras) && !nsFiles.Has(p)
    ensures Consistent(nsFiles.Set(p, []), AddNamespace(nsFiles, extras, p, c))
  {
    SetKeepsWellFormed(nsFiles, p, []);
    AddNamespaceWellFormed(nsFiles, extras, p, c);
    AddNamespaceAssociates(nsFiles, extras, p, c, []);
  }

  /** `getOrCreateNamespaceSet(p).add(f)` in two steps: the set is created when missing, then added to. */
  lemma AddFileInTwoSteps(nsFiles: PathMap<PathSet>, p: string, f: string)
    ensures var created := if nsFiles.Has(p) then nsFiles else nsFiles.Set(p, []);
      AddFile(nsFiles, p, f) == created.Set(p, SetAdd(nsFiles.Get(p).GetOr([]), f))
  {
    if !nsFiles.Has(p) {
      SetTwice(nsFiles, p, [], SetAdd([], f));
    }
  }

  /** The extra-files half of `getOrCreateNamespaceSet`: the config's set is created, then added to. */
  lemma AddNamespaceInTwoSteps(nsFiles: PathMap<PathSet>, extras: PathMap<PathSet>, p: string, c: string)
    requires !nsFiles.Has(p)
    ensures var created := if extras.Has(c) then extras else extras.Set(c, []);
      && created.Has(c)
      && AddNamespace(nsFiles, extras, p, c) == created.Set(c, SetAdd(created.Get(c).value, p))
  {
    NormalizeIdempotent(c);
    if !extras.Has(c) {
      SetTwice(extras, c, [], SetAdd([], p));
    }
  }

  // ---------------------------------------------------------------------------
  // Re-export files

  /** `createExportDeclaration(..., getTSStyleRelativePath(from, to).replace(".ts", ""))`. */
  function ExportFrom(from: string, to: string): Node {
    ExportDeclaration(ReplaceFirst(TsStyleRelativePath(from, to), ".ts", ""))
  }

  /**
   * The project references, in order, that have registered a namespace file with the
   * same base name: `newNamespaceFiles.has(path.join(dep, path.basename(filename)))`.
   */
  function RegisteredDeps(nsFiles: PathMap<PathSet>, deps: seq<string>, filename: string): (r: seq<string>)
    ensures forall dep :: dep in r <==> dep in deps && nsFiles.Has(Join(dep, Basename(filename)))
    ensures |r| <= |deps|
  {
    if deps == [] then []
    else
      (if nsFiles.Has(Join(deps[0], Basename(filename))) then [deps[0]] else [])
      + RegisteredDeps(nsFiles, deps[1..], filename)
  }

  /** The re-exports of the same namespace file in those referenced projects, in reference order. */
  function DependencyExports(nsFiles: PathMap<PathSet>, deps: seq<string>, filename: string): (r: seq<Node>) {
    if deps == [] then []
    else
      var nsFileName := Join(deps[0], Basename(filename));
      (if nsFiles.Has(nsFileName) then [ExportFrom(filename, nsFileName)] else [])
      + DependencyExports(nsFiles, deps[1..], filename)
  }

  /** The namespace files of the registered references. */
  function Targets(registered: seq<string>, filename: string): (r: seq<string>) {
    seq(|registered|, k requires 0 <= k < |registered| => Join(registered[k], Basename(filename)))
  }

  /** The local re-exports: one per file registered for the namespace, in order. */
  function LocalExports(reexports: PathSet, filename: string): (r: seq<Node>) {
    seq(|reexports|, k requires 0 <= k < |reexports| => ExportFrom(filename, reexports[k]))
  }

  lemma TargetsCons(dep: string, registered: seq<string>, filename: string)
    ensures Targets([dep] + registered, filename) == [Join(dep, Basename(filename))] + Targets(registered, filename)
  {
  }

  lemma LocalExportsCons(x: string, reexports: PathSet, filename: string)
    ensures LocalExports([x] + reexports, filename) == [ExportFrom(filename, x)] + LocalExports(reexports, filename)
  {
    var xs := [x] + reexports;
    forall k | 1 <= k < |xs|
      ensures LocalExports(xs, filename)[k] == LocalExports(reexports, filename)[k - 1]
    {
      assert xs[k] == reexports[k - 1];
    }
  }

  /**
   * The dependency re-exports are exactly one re-export, in reference order, of the
   * same-named namespace file of each reference that registered one.
   */
  lemma {:induction false} DependencyExportsOfRegistered(nsFiles: PathMap<PathSet>, deps: seq<string>, filename: string)
    ensures DependencyExports(nsFiles, deps, filename) == LocalExports(Targets(RegisteredDeps(nsFiles, deps, filename), filename), filename)
  {
    if deps != [] {
      var rest := deps[1..];
      DependencyExportsOfRegistered(nsFiles, rest, filename);
      var registered := RegisteredDeps(nsFiles, rest, filename);
      if nsFiles.Has(Join(deps[0], Basename(filename))) {
        TargetsCons(deps[0], registered, filename);
        LocalExportsCons(Join(deps[0], Basename(filename)), Targets(registered, filename), filename);
      } else {
        assert RegisteredDeps(nsFiles, deps, filename) == [] + registered;
        assert [] + registered == registered;
      }
    }
  }

  lemma LocalExportsStep(reexports: PathSet, x: string, filename: string)
    ensures LocalExports(reexports + [x], filename) == LocalExports(reexports, filename) + [ExportFrom(filename, x)]
  {
  }

  /**
   * The re-export file of one namespace file: dependency re-exports first, when the
   * associated config has project references, then the local ones.
   */
  function NamespaceFile(nsFiles: PathMap<PathSet>, extras: PathMap<PathSet>, configDeps: PathMap<seq<string>>, filename: string): (r: SourceFile)
    requires filename in nsFiles.entries && AssociatedConfig(extras, filename).Some?
    ensures r.fileName == filename
  {
    var dependentPaths := configDeps.Get(AssociatedConfig(extras, filename).value);
    SourceFile(filename,
      (if dependentPaths.Some? && |dependentPaths.value| > 0 then DependencyExports(nsFiles, dependentPaths.value, filename) else [])
      + LocalExports(nsFiles.entries[filename], filename))
  }

  /** The re-export files of the given namespace files, in order. */
  function NamespaceFiles(nsFiles: PathMap<PathSet>, extras: PathMap<PathSet>, configDeps: PathMap<seq<string>>, filenames: seq<string>): (r: seq<SourceFile>)
    requires forall f :: f in filenames ==> f in nsFiles.entries && AssociatedConfig(extras, f).Some?
  {
    seq(|filenames|, k requires 0 <= k < |filenames| => NamespaceFile(nsFiles, extras, configDeps, filenames[k]))
  }

  lemma NamespaceFilesStep(nsFiles: PathMap<PathSet>, extras: PathMap<PathSet>, configDeps: PathMap<seq<string>>, filenames: seq<string>, f: string)
    requires forall g :: g in filenames ==> g in nsFiles.entries && AssociatedConfig(extras, g).Some?
    requires f in nsFiles.entries && AssociatedConfig(extras, f).Some?
    ensures NamespaceFiles(nsFiles, extras, configDeps, filenames + [f])
            == NamespaceFiles(nsFiles, extras, configDeps, filenames) + [NamespaceFile(nsFiles, extras, configDeps, f)]
  {
  }

  // ---------------------------------------------------------------------------
  // Statement rewrite

  /**
   * The walk of the `while` loop from `body`: the names of the nested declarations that
   * have a body, and the body where the walk stops.
   */
  function Chain(body: Node): (r: (seq<Node>, Node))
    ensures !(r.1.ModuleDeclaration? && r.1.body.Some?)
  {
    if body.ModuleDeclaration? && body.body.Some? then
      var rest := Chain(body.body.value);
      ([body.name] + rest.0, rest.1)
    else ([], body)
  }

  function IdTexts(ns: seq<Node>): (r: seq<string>)
    ensures |r| == |ns| && forall k :: 0 <= k < |ns| ==> r[k] == IdText(ns[k])
  {
    if ns == [] then [] else [IdText(ns[0])] + IdTexts(ns[1..])
  }

  /** What `visitStatements` does with a namespace chain ending in a block. */
  datatype Stripped = Stripped(first: string, namespacePath: string, statements: seq<Node>)

  /** `visitStatements` as a value: `None` when the statement is left as it is. */
  function Strip(statement: Node): Option<Stripped> {
    if statement.ModuleDeclaration? && !statement.name.StringLiteral? && statement.body.Some? then
      var walk := Chain(statement.body.value);
      var nsPath := [statement.name] + walk.0;
      if walk.1.ModuleBlock? then Some(Stripped(IdText(nsPath[0]), JoinWith(IdTexts(nsPath), "."), walk.1.statements))
      else None
    else None
  }

  /** `namespace n1.n2...nk { body }`: each name a declaration whose body is the next. */
  function Nest(ids: seq<Node>, body: seq<Node>): Node
    requires ids != []
  {
    if |ids| == 1 then ModuleDeclaration(ids[0], Some(ModuleBlock(body)))
    else ModuleDeclaration(ids[0], Some(Nest(ids[1..], body)))
  }

  /** Walking the dotted form `a.b.c { S }` gives back its names and its block. */
  lemma {:induction false} ChainOfNest(ids: seq<Node>, body: seq<Node>)
    requires ids != []
    ensures Chain(Nest(ids, body)) == (ids, ModuleBlock(body))
  {
    if |ids| > 1 {
      ChainOfNest(ids[1..], body);
      assert [ids[0]] + ids[1..] == ids;
    } else {
      assert Chain(ModuleBlock(body)) == ([], ModuleBlock(body));
      assert [ids[0]] + [] == ids;
    }
  }

  /**
   * A chain `a.b.c { S }` is replaced by exactly `S`; `a` is the import it needs and
   * `a.b.c` names its namespace file.
   */
  lemma StripNest(ids: seq<Node>, body: seq<Node>)
    requires ids != [] && !ids[0].StringLiteral?
    ensures Strip(Nest(ids, body)) == Some(Stripped(IdText(ids[0]), JoinWith(IdTexts(ids), "."), body))
  {
    var n := Nest(ids, body);
    if |ids| > 1 {
      ChainOfNest(ids[1..], body);
      assert n.body.value == Nest(ids[1..], body);
      assert [ids[0]] + ids[1..] == ids;
    } else {
      assert Chain(n.body.value) == ([], ModuleBlock(body));
      assert [ids[0]] + [] == ids;
    }
  }

  /**
   * Braced nesting `namespace a { namespace b { S } }` is stripped one level only: the outer
   * body is a block, so the walk stops there and the inner declaration stays a statement.
   */
  lemma BracedNestingStripsOneLevel(a: Node, b: Node, body: seq<Node>)
    requires !a.StringLiteral?
    ensures var inner := ModuleDeclaration(b, Some(ModuleBlock(body)));
      Strip(ModuleDeclaration(a, Some(ModuleBlock([inner])))) == Some(Stripped(IdText(a), IdText(a), [inner]))
  {
  }

  /**
   * Left as they are: statements other than namespace declarations, declarations named by
   * a string, declarations without a body, and chains whose innermost body is not a block.
   */
  lemma StripLeavesAlone(statement: Node)
    requires || !statement.ModuleDeclaration?
             || statement.name.StringLiteral?
             || statement.body.None?
             || !Chain(statement.body.value).1.ModuleBlock?
    ensures Strip(statement).None?
  {
  }

  /** The statement list `visitNodes(statements, visitStatements)` returns. */
  function StripStatements(statements: seq<Node>): seq<Node> {
    if statements == [] then []
    else
      var last := statements[|statements| - 1];
      StripStatements(statements[..|statements| - 1])
      + (match Strip(last) case None => [last] case Some(st) => st.statements)
  }

  /** The required imports after visiting the statements. */
  function RequiredAfter(required: seq<string>, statements: seq<Node>): (r: seq<string>)
    ensures Distinct(required) ==> Distinct(r)
  {
    if statements == [] then required
    else
      var before := RequiredAfter(required, statements[..|statements| - 1]);
      match Strip(statements[|statements| - 1])
      case None => before
      case Some(st) => AddOnce(before, st.first)
  }

  /** The required imports only grow: earlier entries keep their places. */
  lemma {:induction false} RequiredAfterExtends(required: seq<string>, statements: seq<Node>)
    ensures |required| <= |RequiredAfter(required, statements)|
    ensures RequiredAfter(required, statements)[..|required|] == required
  {
    if statements != [] {
      RequiredAfterExtends(required, statements[..|statements| - 1]);
    }
  }

  /** `${projRootDir}/${nsPath.map(idText).join(".")}.ts`. */
  function NamespaceFilePath(projRootDir: string, namespacePath: string): string {
    projRootDir + "/" + namespacePath + ".ts"
  }

  /** The two maps after registering the file for every stripped statement. */
  function RegisteredAfter(nsFiles: PathMap<PathSet>, extras: PathMap<PathSet>, statements: seq<Node>,
                           projRootDir: string, configPath: string, fileName: string): (PathMap<PathSet>, PathMap<PathSet>)
  {
    if statements == [] then (nsFiles, extras)
    else
      var before := RegisteredAfter(nsFiles, extras, statements[..|statements| - 1], projRootDir, configPath, fileName);
      match Strip(statements[|statements| - 1])
      case None => before
      case Some(st) =>
        var p := NamespaceFilePath(projRootDir, st.namespacePath);
        (AddFile(before.0, p, fileName), AddNamespace(before.0, before.1, p, configPath))
  }

  /** The import statement for one required import. */
  function RequiredImport(fileName: string, projRootDir: string, name: string): Node {
    NamespaceImportDeclaration(name, TsStyleRelativePath(fileName, Join(projRootDir, name)))
  }

  /** `getRequiredImports`: one namespace import per required import, in insertion order. */
  function RequiredImports(fileName: string, projRootDir: string, required: seq<string>): (r: seq<Node>) {
    seq(|required|, k requires 0 <= k < |required| => RequiredImport(fileName, projRootDir, required[k]))
  }

  lemma RequiredImportsStep(fileName: string, projRootDir: string, required: seq<string>, name: string)
    ensures RequiredImports(fileName, projRootDir, required + [name])
            == RequiredImports(fileName, projRootDir, required) + [RequiredImport(fileName, projRootDir, name)]
  {
  }

  /** Each required import binds its name, and its specifier starts with "." and has no backslash. */
  lemma RequiredImportShape(fileName: string, projRootDir: string, name: string)
    ensures var imp := RequiredImport(fileName, projRootDir, name);
      && IsNamespaceImport(imp) && BoundName(imp) == name
      && StartsWith(imp.moduleSpecifier, ".") && Backslash !in imp.moduleSpecifier
  {
  }

  /** The loop over the associated config's project references. */
  method DependencyReexports(nsFiles: PathMap<PathSet>, deps: seq<string>, filename: string) returns (statements: seq<Node>)
    ensures statements == DependencyExports(nsFiles, deps, filename)
  {
    statements := [];
    var rest := deps;
    while rest != []
      invariant statements + DependencyExports(nsFiles, rest, filename) == DependencyExports(nsFiles, deps, filename)
    {
      var dep := rest[0];
      rest := rest[1..];
      var nsFileName := Join(dep, Basename(filename));
      if nsFiles.Has(nsFileName) {
        AppendAssoc(statements, [ExportFrom(filename, nsFileName)], DependencyExports(nsFiles, rest, filename));
        statements := statements + [ExportFrom(filename, nsFileName)];
      }
    }
    assert statements + [] == statements;
  }

  /** The loop over the files registered for the namespace. */
  method LocalReexports(reexports: PathSet, filename: string) returns (statements: seq<Node>)
    ensures statements == LocalExports(reexports, filename)
  {
    statements := [];
    var j := 0;
    while j < |reexports|
      invariant 0 <= j <= |reexports|
      invariant statements == LocalExports(reexports[..j], filename)
    {
      assert reexports[..j + 1] == reexports[..j] + [reexports[j]];
      LocalExportsStep(reexports[..j], reexports[j], filename);
      statements := statements + [ExportFrom(filename, reexports[j])];
      j := j + 1;
    }
    assert reexports[..j] == reexports;
  }

  /** The config's set of extra files, created when missing, gets the new namespace file. */
  method JoinConfigSet(nsFiles: PathMap<PathSet>, extras: PathMap<PathSet>, namespaceFilePath: string, configFilePath: string)
    returns (r: PathMap<PathSet>)
    requires !nsFiles.Has(namespaceFilePath)
    ensures r == AddNamespace(nsFiles, extras, namespaceFilePath, configFilePath)
  {
    AddNamespaceInTwoSteps(nsFiles, extras, namespaceFilePath, configFilePath);
    r := extras;
    var configRes := r.Get(configFilePath);
    if configRes.None? {
      r := r.Set(configFilePath, []);
    }
    r := r.Set(configFilePath, SetAdd(r.Get(configFilePath).value, namespaceFilePath));
  }

  /** The `while` loop of `visitStatements`: follows the chain of nested declarations. */
  method WalkChain(statement: Node) returns (nsPath: seq<Node>, body: Node)
    requires statement.ModuleDeclaration? && statement.body.Some?
    ensures nsPath == [statement.name] + Chain(statement.body.value).0
    ensures body == Chain(statement.body.value).1
  {
    body := statement.body.value;
    nsPath := [statement.name];
    while body.ModuleDeclaration? && body.body.Some?
      invariant nsPath + Chain(body).0 == [statement.name] + Chain(statement.body.value).0
      invariant Chain(body).1 == Chain(statement.body.value).1
      decreases body
    {
      nsPath := nsPath + [body.name];
      body := body.body.value;
    }
  }

  // ---------------------------------------------------------------------------
  // The state

  /** The three path maps shared by every project of one build. */
  class Registry {
    var newNamespaceFiles: PathMap<PathSet>
    var extraFilesFieldMembers: PathMap<PathSet>
    var configDeps: PathMap<seq<string>>

    ghost predicate Valid()
      reads this
    {
      Consistent(newNamespaceFiles, extraFilesFieldMembers) && configDeps.Valid()
    }

    constructor ()
      ensures Valid()
      ensures newNamespaceFiles.keys == [] && extraFilesFieldMembers.keys == [] && configDeps.keys == []
    {
      newNamespaceFiles := EmptyPathMap();
      extraFilesFieldMembers := EmptyPathMap();
      configDeps := EmptyPathMap();
    }

    /**
     * `getOrCreateNamespaceSet`: the set registered for the namespace file, by value. An
     * already registered namespace file keeps its set and changes nothing; a new one gets
     * an empty set and joins its config's extra files.
     */
    method GetOrCreateNamespaceSet(namespaceFilePath: string, configFilePath: string) returns (files: PathSet)
      requires Valid()
      modifies this
      ensures Valid()
      ensures files == old(newNamespaceFiles.Get(namespaceFilePath)).GetOr([])
      ensures newNamespaceFiles.Get(namespaceFilePath) == Some(files)
      ensures old(newNamespaceFiles.Has(namespaceFilePath)) ==>
        newNamespaceFiles == old(newNamespaceFiles) && extraFilesFieldMembers == old(extraFilesFieldMembers)
      ensures !old(newNamespaceFiles.Has(namespaceFilePath)) ==>
        && newNamespaceFiles == old(newNamespaceFiles).Set(namespaceFilePath, [])
        && extraFilesFieldMembers == AddNamespace(old(newNamespaceFiles), old(extraFilesFieldMembers), namespaceFilePath, configFilePath)
      ensures configDeps == old(configDeps)
    {
      var res := newNamespaceFiles.Get(namespaceFilePath);
      if res.None? {
        CreateNamespaceSet(namespaceFilePath, configFilePath);
        files := [];
      } else {
        files := res.value;
      }
    }

    /** The branch of `getOrCreateNamespaceSet` that creates the set of a new namespace file. */
    method CreateNamespaceSet(namespaceFilePath: string, configFilePath: string)
      requires Valid() && !newNamespaceFiles.Has(namespaceFilePath)
      modifies this
      ensures Valid()
      ensures newNamespaceFiles == old(newNamespaceFiles).Set(namespaceFilePath, [])
      ensures extraFilesFieldMembers == AddNamespace(old(newNamespaceFiles), old(extraFilesFieldMembers), namespaceFilePath, configFilePath)
      ensures configDeps == old(configDeps)
    {
      EmptySetKeepsConsistent(newNamespaceFiles, extraFilesFieldMembers, namespaceFilePath, configFilePath);
      extraFilesFieldMembers := JoinConfigSet(newNamespaceFiles, extraFilesFieldMembers, namespaceFilePath, configFilePath);
      newNamespaceFiles := newNamespaceFiles.Set(namespaceFilePath, []);
    }

    /** `getOrCreateNamespaceSet({...}).add(fileName)`. */
    method Register(namespaceFilePath: string, configFilePath: string, fileName: string)
      requires Valid()
      modifies this
      ensures Valid()
      ensures newNamespaceFiles == AddFile(old(newNamespaceFiles), namespaceFilePath, fileName)
      ensures extraFilesFieldMembers == AddNamespace(old(newNamespaceFiles), old(extraFilesFieldMembers), namespaceFilePath, configFilePath)
      ensures configDeps == old(configDeps)
    {
      RegisterKeepsConsistent(newNamespaceFiles, extraFilesFieldMembers, namespaceFilePath, configFilePath, fileName);
      AddFileInTwoSteps(newNamespaceFiles, namespaceFilePath, fileName);
      var files := GetOrCreateNamespaceSet(namespaceFilePath, configFilePath);
      newNamespaceFiles := newNamespaceFiles.Set(namespaceFilePath, SetAdd(files, fileName));
    }

    /** `configDeps.set(configPath, new Set(refs.map(r => r.path)))` when there are references. */
    method SetConfigDeps(configPath: string, refs: Option<seq<string>>)
      requires Valid()
      modifies this
      ensures Valid()
      ensures configDeps == if refs.Some? then old(configDeps).Set(configPath, Dedup(refs.value)) else old(configDeps)
      ensures newNamespaceFiles == old(newNamespaceFiles) && extraFilesFieldMembers == old(extraFilesFieldMembers)
    {
      if refs.Some? {
        configDeps := configDeps.Set(configPath, Dedup(refs.value));
      }
    }

    /** The re-export file of one registered namespace file. */
    method CreateSourceFile(filename: string) returns (file: SourceFile)
      requires Valid() && filename in newNamespaceFiles.entries
      ensures file == NamespaceFile(newNamespaceFiles, extraFilesFieldMembers, configDeps, filename)
    {
      var reexportStatements: seq<Node> := [];
      var associatedConfig := AssociatedConfig(extraFilesFieldMembers, filename).value;
      var dependentPaths := configDeps.Get(associatedConfig);
      if dependentPaths.Some? && |dependentPaths.value| > 0 {
        reexportStatements := DependencyReexports(newNamespaceFiles, dependentPaths.value, filename);
      }
      var local := LocalReexports(newNamespaceFiles.entries[filename], filename);
      file := SourceFile(filename, reexportStatements + local);
    }

    /** `createSourceFilesForMap(newNamespaceFiles)`: one file per namespace file, in map order. */
    method CreateSourceFilesForMap() returns (results: seq<SourceFile>)
      requires Valid()
      ensures results == NamespaceFiles(newNamespaceFiles, extraFilesFieldMembers, configDeps, newNamespaceFiles.keys)
    {
      results := [];
      var keys := newNamespaceFiles.keys;
      var i := 0;
      while i < |keys|
        invariant 0 <= i <= |keys|
        invariant results == NamespaceFiles(newNamespaceFiles, extraFilesFieldMembers, configDeps, keys[..i])
      {
        assert keys[..i + 1] == keys[..i] + [keys[i]];
        NamespaceFilesStep(newNamespaceFiles, extraFilesFieldMembers, configDeps, keys[..i], keys[i]);
        var file := CreateSourceFile(keys[i]);
        results := results + [file];
        i := i + 1;
      }
      assert keys[..i] == keys;
    }

    /** `onTransformComplete`: no additional files when nothing was registered. */
    method OnTransformComplete() returns (additionalOutputFiles: Option<seq<SourceFile>>)
      requires Valid()
      ensures additionalOutputFiles.None? <==> newNamespaceFiles.keys == []
      ensures additionalOutputFiles.Some? ==>
        additionalOutputFiles.value == NamespaceFiles(newNamespaceFiles, extraFilesFieldMembers, configDeps, newNamespaceFiles.keys)
    {
      if |newNamespaceFiles.keys| == 0 {
        return None;
      }
      var files := CreateSourceFilesForMap();
      return Some(files);
    }

    /**
     * `getStripNamespacesTransformFactory(checker, program)`: records the project's
     * references and gives the project root, the directory of its config file.
     */
    method GetStripNamespacesTransformFactory(configPath: string, refs: Option<seq<string>>) returns (projRootDir: string)
      requires Valid()
      modifies this
      ensures Valid()
      ensures configDeps == if refs.Some? then old(configDeps).Set(configPath, Dedup(refs.value)) else old(configDeps)
      ensures newNamespaceFiles == old(newNamespaceFiles) && extraFilesFieldMembers == old(extraFilesFieldMembers)
      ensures projRootDir == Dirname(configPath)
    {
      SetConfigDeps(configPath, refs);
      projRootDir := Dirname(configPath);
    }
  }

  /** One transformation context: its required imports, over the shared maps. */
  class Stripper {
    const registry: Registry
    const configPath: string
    const projRootDir: string
    var requiredImports: seq<string>

    ghost predicate Valid()
      reads this, registry
    {
      registry.Valid() && Distinct(requiredImports)
    }

    /** `stripNamespaces(context)`: a fresh, empty set of required imports. */
    constructor (registry: Registry, configPath: string, projRootDir: string)
      requires registry.Valid()
      ensures Valid()
      ensures this.registry == registry && this.configPath == configPath && this.projRootDir == projRootDir
      ensures requiredImports == []
    {
      this.registry := registry;
      this.configPath := configPath;
      this.projRootDir := projRootDir;
      requiredImports := [];
    }

    /** `visitStatements`. */
    method VisitStatements(fileName: string, statement: Node) returns (r: seq<Node>)
      requires Valid()
      modifies this, registry
      ensures Valid()
      ensures Strip(statement).None? ==>
        && r == [statement]
        && requiredImports == old(requiredImports)
        && registry.newNamespaceFiles == old(registry.newNamespaceFiles)
        && registry.extraFilesFieldMembers == old(registry.extraFilesFieldMembers)
      ensures Strip(statement).Some? ==>
        var st := Strip(statement).value;
        var p := NamespaceFilePath(projRootDir, st.namespacePath);
        && r == st.statements
        && requiredImports == AddOnce(old(requiredImports), st.first)
        && registry.newNamespaceFiles == AddFile(old(registry.newNamespaceFiles), p, fileName)
        && registry.extraFilesFieldMembers == AddNamespace(old(registry.newNamespaceFiles), old(registry.extraFilesFieldMembers), p, configPath)
      ensures registry.configDeps == old(registry.configDeps)
    {
      if statement.ModuleDeclaration? && !statement.name.StringLiteral? && statement.body.Some? {
        var nsPath, body := WalkChain(statement);
        if !body.ModuleBlock? {
          return [statement];
        }
        requiredImports := AddOnce(requiredImports, IdText(nsPath[0]));
        var nsFilePath := NamespaceFilePath(projRootDir, JoinWith(IdTexts(nsPath), "."));
        registry.Register(nsFilePath, configPath, fileName);
        return body.statements;
      }
      return [statement];
    }

    /** `getRequiredImports`. */
    method GetRequiredImports(fileName: string) returns (importStatements: seq<Node>)
      ensures importStatements == RequiredImports(fileName, projRootDir, requiredImports)
    {
      importStatements := [];
      var i := 0;
      while i < |requiredImports|
        invariant 0 <= i <= |requiredImports|
        invariant importStatements == RequiredImports(fileName, projRootDir, requiredImports[..i])
      {
        assert requiredImports[..i + 1] == requiredImports[..i] + [requiredImports[i]];
        RequiredImportsStep(fileName, projRootDir, requiredImports[..i], requiredImports[i]);
        var nsFilePath := TsStyleRelativePath(fileName, Join(projRootDir, requiredImports[i]));
        importStatements := importStatements + [NamespaceImportDeclaration(requiredImports[i], nsFilePath)];
        i := i + 1;
      }
      assert requiredImports[..i] == requiredImports;
    }

    /**
     * `transformSourceFile`: the statements visited in order, preceded by one namespace
     * import per required import, counting those of earlier files of this context.
     */
    method TransformSourceFile(file: SourceFile) returns (r: SourceFile)
      requires Valid()
      modifies this, registry
      ensures Valid()
      ensures requiredImports == RequiredAfter(old(requiredImports), file.statements)
      ensures (registry.newNamespaceFiles, registry.extraFilesFieldMembers)
              == RegisteredAfter(old(registry.newNamespaceFiles), old(registry.extraFilesFieldMembers), file.statements,
                                 projRootDir, configPath, file.fileName)
      ensures registry.configDeps == old(registry.configDeps)
      ensures r == SourceFile(file.fileName,
                              RequiredImports(file.fileName, projRootDir, requiredImports) + StripStatements(file.statements))
    {
      var statements: seq<Node> := [];
      var i := 0;
      while i < |file.statements|
        invariant 0 <= i <= |file.statements|
        invariant Valid()
        invariant statements == StripStatements(file.statements[..i])
        invariant requiredImports == RequiredAfter(old(requiredImports), file.statements[..i])
        invariant (registry.newNamespaceFiles, registry.extraFilesFieldMembers)
                  == RegisteredAfter(old(registry.newNamespaceFiles), old(registry.extraFilesFieldMembers), file.statements[..i],
                                     projRootDir, configPath, file.fileName)
        invariant registry.configDeps == old(registry.configDeps)
      {
        assert file.statements[..i + 1][..i] == file.statements[..i];
        var visited := VisitStatements(file.fileName, file.statements[i]);
        statements := statements + visited;
        i := i + 1;
      }
      assert file.statements[..i] == file.statements;
      var imports := GetRequiredImports(file.fileName);
      r := SourceFile(file.fileName, imports + statements);
    }
  }
}
