/**
 * The rewrite of each project's config file (`removePrependFromReferencesAndAddNamespacesToFiles`):
 * once namespaces are stripped, projects no longer concatenate their outputs, so
 *  - `"outFile": "x.js"` becomes `"outDir": "x"` (the first ".js" removed),
 *  - every `"prepend"` property (of a project reference) is deleted,
 *  - a `"files"` array of a config that owns namespace files gets one entry per such file,
 *    written relative to the config file.
 * Every other node is rebuilt from its visited children. A config file is JSON, so its
 * expressions are modelled as a JSON value.
 */
module ManifestRewrite {
  import opened Wrappers
  import opened Text
  import opened Paths
  import opened PathMaps

  /** A property name: a string literal (every key of a JSON file) or a bare identifier. */
  datatype PropertyName = QuotedName(text: string) | IdentifierName(text: string)

  /**
   * The expressions of a config file. String and numeric literals keep their source text;
   * `true`, `false`, `null` and any other token without text are keywords.
   */
  datatype Json =
    | JString(text: string)
    | JNumber(text: string)
    | JKeyword(word: string)
    | JArray(elements: seq<Json>)
    | JObject(properties: seq<Property>)

  datatype Property = Property(name: PropertyName, initializer: Json)

  /** A config file: its name and the expression of its one statement. */
  datatype ConfigFile = ConfigFile(fileName: string, root: Json)

  // The visitor

  /**
   * The new entries of a `"files"` array: the path of each extra file relative to the
   * config file, as string literals, in set order.
   */
  function FileLiterals(fileName: string, files: PathSet): (r: seq<Json>)
    ensures |r| == |files|
    ensures forall k :: 0 <= k < |r| ==> r[k].JString? && StartsWith(r[k].text, ".") && Backslash !in r[k].text
  {
    seq(|files|, k requires 0 <= k < |files| => JString(TsStyleRelativePath(fileName, files[k])))
  }

  /** The `forEach` that collects the new file literals. */
  method CollectFileLiterals(fileName: string, files: PathSet) returns (newFileLiterals: seq<Json>)
    ensures newFileLiterals == FileLiterals(fileName, files)
  {
    newFileLiterals := [];
    for i := 0 to |files|
      invariant newFileLiterals == FileLiterals(fileName, files[..i])
    {
      assert files[..i + 1][i] == files[i];
      newFileLiterals := newFileLiterals + [JString(TsStyleRelativePath(fileName, files[i]))];
    }
    assert files[..|files|] == files;
  }

  /**
   * `visitElement` on a property: `None` where the source throws (an `"outFile"` whose value
   * has no text), `Some([])` where the property is deleted, otherwise the one new property.
   */
  function VisitProperty(p: Property, fileName: string, extras: PathMap<PathSet>): (r: Option<seq<Property>>)
    ensures r.Some? ==> |r.value| <= 1
    decreases p
  {
    if p.name == QuotedName("outFile") then
      match p.initializer
      case JString(t) => Some([Property(QuotedName("outDir"), JString(ReplaceFirst(t, ".js", "")))])
      case JNumber(t) => Some([Property(QuotedName("outDir"), JString(ReplaceFirst(t, ".js", "")))])
      case _ => None
    else if p.name == QuotedName("prepend") then
      Some([])
    else if p.name == QuotedName("files") && p.initializer.JArray? && extras.Has(fileName) then
      var extended := p.initializer.elements + FileLiterals(fileName, extras.Get(fileName).value);
      Some([Property(p.name, JArray(extended))])
    else
      match VisitEachChild(p.initializer, fileName, extras)
      case None => None
      case Some(init) => Some([Property(p.name, init)])
  }

  /** `visitEachChild(node, visitElement)` on an expression: its elements or properties visited. */
  function VisitEachChild(j: Json, fileName: string, extras: PathMap<PathSet>): (r: Option<Json>)
    decreases j
  {
    match j
    case JArray(es) =>
      (match VisitElements(es, fileName, extras)
       case None => None
       case Some(rs) => Some(JArray(rs)))
    case JObject(ps) =>
      (match VisitProperties(ps, fileName, extras)
       case None => None
       case Some(rs) => Some(JObject(rs)))
    case _ => Some(j)
  }

  /** The elements of an array, each visited; the first that throws makes the whole visit throw. */
  function VisitElements(es: seq<Json>, fileName: string, extras: PathMap<PathSet>): (r: Option<seq<Json>>)
    ensures r.Some? ==> |r.value| == |es|
    decreases es
  {
    if es == [] then Some([])
    else
      match VisitEachChild(es[0], fileName, extras)
      case None => None
      case Some(e) =>
        match VisitElements(es[1..], fileName, extras)
        case None => None
        case Some(rest) => Some([e] + rest)
  }

  /** The properties of an object, each visited; a deleted property leaves no entry. */
  function VisitProperties(ps: seq<Property>, fileName: string, extras: PathMap<PathSet>): (r: Option<seq<Property>>)
    ensures r.Some? ==> |r.value| <= |ps|
    decreases ps
  {
    if ps == [] then Some([])
    else
      match VisitProperty(ps[0], fileName, extras)
      case None => None
      case Some(p) =>
        match VisitProperties(ps[1..], fileName, extras)
        case None => None
        case Some(rest) => Some(p + rest)
  }

  /**
   * `transformSourceFile`: the config file with its root expression visited (the root is
   * not a property, so it is rebuilt from its visited children).
   */
  function TransformConfigFile(file: ConfigFile, extras: PathMap<PathSet>): (r: Option<ConfigFile>)
    ensures r.Some? ==> r.value.fileName == file.fileName
  {
    match VisitEachChild(file.root, file.fileName, extras)
    case None => None
    case Some(root) => Some(ConfigFile(file.fileName, root))
  }

  // What the rewrite promises

  /** No property named `key` occurs anywhere in `j`. */
  predicate KeyFree(j: Json, key: string)
    decreases j
  {
    match j
    case JArray(es) => forall k | 0 <= k < |es| :: KeyFree(es[k], key)
    case JObject(ps) => forall k | 0 <= k < |ps| :: ps[k].name != QuotedName(key) && KeyFree(ps[k].initializer, key)
    case _ => true
  }

  /** A `"files"` property with an array value: the one kind of property whose value may be kept unvisited. */
  predicate FilesArray(p: Property) {
    p.name == QuotedName("files") && p.initializer.JArray?
  }

  /**
   * No `"prepend"` and no `"outFile"` property occurs in `j`, except inside the value of a
   * `"files"` array when `filesKept` (such a value is extended, not visited).
   */
  predicate Clean(j: Json, filesKept: bool)
    decreases j
  {
    match j
    case JArray(es) => forall k | 0 <= k < |es| :: Clean(es[k], filesKept)
    case JObject(ps) => forall k | 0 <= k < |ps| :: PropertyIsClean(ps[k], filesKept)
    case _ => true
  }

  /** One property of a `Clean` object. */
  predicate PropertyIsClean(p: Property, filesKept: bool)
    decreases p
  {
    && p.name != QuotedName("prepend")
    && p.name != QuotedName("outFile")
    && ((filesKept && FilesArray(p)) || Clean(p.initializer, filesKept))
  }

  /**
   * The rewrite removes every `"prepend"` and every `"outFile"`: everywhere when the config
   * file owns no namespace files, and everywhere outside its `"files"` arrays otherwise.
   */
  lemma {:induction false} VisitCleans(j: Json, fileName: string, extras: PathMap<PathSet>)
    ensures var r := VisitEachChild(j, fileName, extras); r.Some? ==> Clean(r.value, extras.Has(fileName))
    decreases j
  {
    match j
    case JArray(es) =>
      ElementsClean(es, fileName, extras);
      var r := VisitElements(es, fileName, extras);
      if r.Some? {
        assert VisitEachChild(j, fileName, extras) == Some(JArray(r.value));
      }
    case JObject(ps) => PropertiesClean(ps, fileName, extras);
    case _ =>
  }

  lemma {:induction false} ElementsClean(es: seq<Json>, fileName: string, extras: PathMap<PathSet>)
    ensures var r := VisitElements(es, fileName, extras);
      r.Some? ==> Clean(JArray(r.value), extras.Has(fileName))
    decreases es
  {
    if es != [] {
      VisitCleans(es[0], fileName, extras);
      ElementsClean(es[1..], fileName, extras);
      var r := VisitElements(es, fileName, extras);
      if r.Some? {
        var head := VisitEachChild(es[0], fileName, extras).value;
        var rest := VisitElements(es[1..], fileName, extras).value;
        assert r.value == [head] + rest;
        forall k | 0 <= k < |r.value|
          ensures Clean(r.value[k], extras.Has(fileName))
        {
          if k > 0 {
            assert r.value[k] == rest[k - 1];
          }
        }
      }
    }
  }

  lemma {:induction false} PropertiesClean(ps: seq<Property>, fileName: string, extras: PathMap<PathSet>)
    ensures var r := VisitProperties(ps, fileName, extras);
      r.Some? ==> Clean(JObject(r.value), extras.Has(fileName))
    decreases ps
  {
    if ps != [] {
      PropertyClean(ps[0], fileName, extras);
      PropertiesClean(ps[1..], fileName, extras);
      var r := VisitProperties(ps, fileName, extras);
      if r.Some? {
        var head := VisitProperty(ps[0], fileName, extras).value;
        var rest := VisitProperties(ps[1..], fileName, extras).value;
        assert r.value == head + rest;
        forall k | 0 <= k < |r.value|
          ensures PropertyIsClean(r.value[k], extras.Has(fileName))
        {
          if k < |head| {
            assert r.value[k] == head[k];
          } else {
            assert r.value[k] == rest[k - |head|];
          }
        }
      }
    }
  }

  lemma {:induction false} PropertyClean(p: Property, fileName: string, extras: PathMap<PathSet>)
    ensures var r := VisitProperty(p, fileName, extras);
      r.Some? ==> forall k | 0 <= k < |r.value| :: PropertyIsClean(r.value[k], extras.Has(fileName))
    decreases p
  {
    if p.name != QuotedName("outFile") && p.name != QuotedName("prepend")
      && !(FilesArray(p) && extras.Has(fileName)) {
      VisitCleans(p.initializer, fileName, extras);
    }
  }

  /**
   * A config file with no `"prepend"`, no `"outFile"` and (unless it owns no namespace
   * files) no `"files"` comes back unchanged.
   */
  lemma {:induction false} VisitIdentity(j: Json, fileName: string, extras: PathMap<PathSet>)
    requires KeyFree(j, "prepend") && KeyFree(j, "outFile")
    requires !extras.Has(fileName) || KeyFree(j, "files")
    ensures VisitEachChild(j, fileName, extras) == Some(j)
    decreases j
  {
    match j
    case JArray(es) => ElementsIdentity(es, fileName, extras);
    case JObject(ps) => PropertiesIdentity(ps, fileName, extras);
    case _ =>
  }

  lemma {:induction false} ElementsIdentity(es: seq<Json>, fileName: string, extras: PathMap<PathSet>)
    requires forall k | 0 <= k < |es| :: KeyFree(es[k], "prepend") && KeyFree(es[k], "outFile")
    requires !extras.Has(fileName) || forall k | 0 <= k < |es| :: KeyFree(es[k], "files")
    ensures VisitElements(es, fileName, extras) == Some(es)
    decreases es
  {
    if es != [] {
      VisitIdentity(es[0], fileName, extras);
      ElementsIdentity(es[1..], fileName, extras);
      assert [es[0]] + es[1..] == es;
    }
  }

  lemma {:induction false} PropertiesIdentity(ps: seq<Property>, fileName: string, extras: PathMap<PathSet>)
    requires KeyFree(JObject(ps), "prepend") && KeyFree(JObject(ps), "outFile")
    requires !extras.Has(fileName) || KeyFree(JObject(ps), "files")
    ensures VisitProperties(ps, fileName, extras) == Some(ps)
    decreases ps
  {
    if ps != [] {
      assert KeyFree(JObject(ps[1..]), "prepend") && KeyFree(JObject(ps[1..]), "outFile");
      assert !extras.Has(fileName) || KeyFree(JObject(ps[1..]), "files");
      VisitIdentity(ps[0].initializer, fileName, extras);
      PropertiesIdentity(ps[1..], fileName, extras);
      assert [ps[0]] + ps[1..] == ps;
    }
  }

  /** Only an `"outFile"` without text makes the rewrite throw. */
  lemma {:induction false} VisitSucceeds(j: Json, fileName: string, extras: PathMap<PathSet>)
    requires KeyFree(j, "outFile")
    ensures VisitEachChild(j, fileName, extras).Some?
    decreases j
  {
    match j
    case JArray(es) => ElementsSucceed(es, fileName, extras);
    case JObject(ps) => PropertiesSucceed(ps, fileName, extras);
    case _ =>
  }

  lemma {:induction false} ElementsSucceed(es: seq<Json>, fileName: string, extras: PathMap<PathSet>)
    requires forall k | 0 <= k < |es| :: KeyFree(es[k], "outFile")
    ensures VisitElements(es, fileName, extras).Some?
    decreases es
  {
    if es != [] {
      VisitSucceeds(es[0], fileName, extras);
      ElementsSucceed(es[1..], fileName, extras);
    }
  }

  lemma {:induction false} PropertiesSucceed(ps: seq<Property>, fileName: string, extras: PathMap<PathSet>)
    requires KeyFree(JObject(ps), "outFile")
    ensures VisitProperties(ps, fileName, extras).Some?
    decreases ps
  {
    if ps != [] {
      assert KeyFree(JObject(ps[1..]), "outFile");
      VisitSucceeds(ps[0].initializer, fileName, extras);
      PropertiesSucceed(ps[1..], fileName, extras);
    }
  }

  /** An `"outFile"` whose value has no text makes the rewrite throw. */
  lemma OutFileWithoutTextThrows(init: Json, fileName: string, extras: PathMap<PathSet>)
    requires !init.JString? && !init.JNumber?
    ensures VisitEachChild(JObject([Property(QuotedName("outFile"), init)]), fileName, extras).None?
  {
    var p := Property(QuotedName("outFile"), init);
    assert VisitProperty(p, fileName, extras).None?;
    assert VisitProperties([p], fileName, extras).None?;
  }

  /**
   * `"outFile": "<t>"` becomes `"outDir"` with `t` short of its first ".js": putting ".js"
   * back where it was removed gives `t` again.
   */
  lemma OutFileBecomesOutDir(t: string, fileName: string, extras: PathMap<PathSet>)
    ensures var r := VisitProperty(Property(QuotedName("outFile"), JString(t)), fileName, extras);
      && r.Some? && |r.value| == 1
      && r.value[0].name == QuotedName("outDir")
      && r.value[0].initializer.JString?
      && var i := IndexOf(t, ".js", 0);
         var d := r.value[0].initializer.text;
         if i == -1 then d == t else i <= |d| && d[..i] + ".js" + d[i..] == t
  {
    var i := IndexOf(t, ".js", 0);
    if i != -1 {
      var d := ReplaceFirst(t, ".js", "");
      assert d == t[..i] + t[i + 3..];
      assert d[..i] == t[..i];
      assert d[i..] == t[i + 3..];
      assert t[i..i + 3] == ".js";
      assert t == t[..i] + t[i..i + 3] + t[i + 3..];
    }
  }

  /** A `"prepend"` property is deleted, whatever its value. */
  lemma PrependDeleted(init: Json, fileName: string, extras: PathMap<PathSet>)
    ensures VisitProperty(Property(QuotedName("prepend"), init), fileName, extras) == Some([])
  {
  }

  /**
   * The `"files"` array of a config file that owns namespace files keeps its entries, in
   * order and unvisited, and gains one entry per owned file: a path starting with "." with
   * no backslash that, joined to the config file's directory, names that file.
   */
  lemma FilesExtended(es: seq<Json>, fileName: string, extras: PathMap<PathSet>)
    requires extras.Has(fileName)
    ensures var files := extras.Get(fileName).value;
      var r := VisitProperty(Property(QuotedName("files"), JArray(es)), fileName, extras);
      && r.Some? && |r.value| == 1
      && r.value[0].name == QuotedName("files")
      && r.value[0].initializer.JArray?
      && var rs := r.value[0].initializer.elements;
         && |rs| == |es| + |files|
         && rs[..|es|] == es
         && forall k | |es| <= k < |rs| ::
              && rs[k].JString?
              && StartsWith(rs[k].text, ".")
              && Backslash !in rs[k].text
              && (IsAbsolute(fileName) && Backslash !in files[k - |es|] ==>
                    Resolve(Join(Dirname(fileName), rs[k].text)) == Resolve(files[k - |es|]))
  {
    var files := extras.Get(fileName).value;
    var lits := FileLiterals(fileName, files);
    var rs := es + lits;
    forall k | |es| <= k < |rs| && IsAbsolute(fileName) && Backslash !in files[k - |es|]
      ensures Resolve(Join(Dirname(fileName), rs[k].text)) == Resolve(files[k - |es|])
    {
      assert rs[k] == lits[k - |es|];
      TsStyleRelativePathRoundTrip(fileName, files[k - |es|]);
    }
    assert rs[..|es|] == es;
  }

  /** Without namespace files a `"files"` array is only visited, so it keeps its length. */
  lemma FilesVisitedWithoutNamespaces(es: seq<Json>, fileName: string, extras: PathMap<PathSet>)
    requires !extras.Has(fileName)
    ensures var r := VisitProperty(Property(QuotedName("files"), JArray(es)), fileName, extras);
      r.Some? ==>
        (|r.value| == 1 && r.value[0].name == QuotedName("files")
         && r.value[0].initializer.JArray? && |r.value[0].initializer.elements| == |es|)
  {
  }
}
