/**
 * The import inliner: `ns.X` (in an expression or a type) becomes a bare `X` when `X`
 * does not already resolve and `ns` is bound by one of the file's namespace imports.
 * Each inlined name is collected under the matching import's module specifier; the file
 * then gets one `import { ... } from "specifier"` per specifier, in front of its rewritten
 * statements, and the result goes through the unused-namespace-import pruner.
 *
 * `visitIdentifiers` is modelled as a pure rewrite that also returns, in traversal order,
 * the `addSyntheticImport` calls it makes; `TransformSourceFile` replays those calls on a
 * `SyntheticImports` object (the rewrite never reads that object, so the order of effects
 * is the same).
 */
module InlineImports {
  import opened Wrappers
  import opened Syntax
  import opened Checker
  import opened Ordered
  import Pruner

  /** One `addSyntheticImport(specifier, importName)` call. */
  datatype Claim = Claim(specifier: string, importName: string)

  /** The result of `visitIdentifiers`: the replacement node and the claims made below it. */
  datatype Visited = Visited(node: Node, claims: seq<Claim>)

  /** `shouldExcludeGlobals`. */
  predicate ExcludeGlobals(rhsName: string) {
    rhsName == "Symbol" || rhsName == "Node"
  }

  /** The left identifier and the right identifier of a candidate: `ns.X` or `ns.X` as a type. */
  function Candidate(n: Node): Option<(Node, Node)> {
    match n
    case QualifiedName(l, r) => if l.Identifier? then Some((l, r)) else None
    case PropertyAccess(e, nm) => if e.Identifier? then Some((e, nm)) else None
    case _ => None
  }

  /** `imports.find(i => getSymbolAtLocation(i.importClause.namedBindings.name) === s)`. */
  function MatchingImport(chk: TypeChecker, imports: seq<Node>, s: Symbol): (r: Option<Node>)
    requires forall i :: i in imports ==> IsNamespaceImport(i)
    ensures r.Some? ==> r.value in imports && chk.symbolAtLocation(BoundIdentifier(r.value)) == Some(s)
    ensures r.None? ==> forall i :: i in imports ==> chk.symbolAtLocation(BoundIdentifier(i)) != Some(s)
  {
    if imports == [] then None
    else if chk.symbolAtLocation(BoundIdentifier(imports[0])) == Some(s) then Some(imports[0])
    else MatchingImport(chk, imports[1..], s)
  }

  /**
   * The inlining decision for `n`: the claim it makes and the identifier that replaces it,
   * or `None` when `n` is to be visited instead.
   */
  function Inline(chk: TypeChecker, imports: seq<Node>, n: Node): Option<(Claim, Node)>
    requires forall i :: i in imports ==> IsNamespaceImport(i)
  {
    match Candidate(n)
    case None => None
    case Some((left, right)) =>
      var s := chk.symbolAtLocation(left);
      var rhsName := IdText(right);
      if s.Some? && rhsName != "" && chk.resolveName(rhsName, n, ExcludeGlobals(rhsName)).None? then
        match MatchingImport(chk, imports, s.value)
        case Some(imp) => Some((Claim(imp.moduleSpecifier, rhsName), right))
        case None => None
      else None
  }

  /** `visitIdentifiers`. */
  function VisitIdentifiers(chk: TypeChecker, imports: seq<Node>, n: Node): Visited
    requires forall i :: i in imports ==> IsNamespaceImport(i)
    decreases n, 1
  {
    if n.ImportDeclaration? then Visited(n, [])
    else
      match Inline(chk, imports, n)
      case Some((claim, right)) => Visited(right, [claim])
      case None => VisitEachChild(chk, imports, n)
  }

  /** `visitEachChild(n, visitIdentifiers)`, with the claims of the children in order. */
  function VisitEachChild(chk: TypeChecker, imports: seq<Node>, n: Node): (r: Visited)
    requires forall i :: i in imports ==> IsNamespaceImport(i)
    ensures SameKind(n, r.node)
    decreases n, 0
  {
    match n
    case Identifier(_, _) => Visited(n, [])
    case StringLiteral(_) => Visited(n, [])
    case QualifiedName(l, r) =>
      var vl := VisitIdentifiers(chk, imports, l);
      var vr := VisitIdentifiers(chk, imports, r);
      Visited(QualifiedName(vl.node, vr.node), vl.claims + vr.claims)
    case PropertyAccess(e, nm) =>
      var ve := VisitIdentifiers(chk, imports, e);
      var vn := VisitIdentifiers(chk, imports, nm);
      Visited(PropertyAccess(ve.node, vn.node), ve.claims + vn.claims)
    case TypeReference(tn, args) =>
      var vt := VisitIdentifiers(chk, imports, tn);
      var va := VisitAll(chk, imports, args);
      Visited(TypeReference(vt.node, va.0), vt.claims + va.1)
    case TypeQuery(e) =>
      var ve := VisitIdentifiers(chk, imports, e);
      Visited(TypeQuery(ve.node), ve.claims)
    case ModuleDeclaration(nm, body) =>
      var vn := VisitIdentifiers(chk, imports, nm);
      if body.Some? then
        var vb := VisitIdentifiers(chk, imports, body.value);
        Visited(ModuleDeclaration(vn.node, Some(vb.node)), vn.claims + vb.claims)
      else Visited(ModuleDeclaration(vn.node, None), vn.claims)
    case ModuleBlock(ss) =>
      var vs := VisitAll(chk, imports, ss);
      Visited(ModuleBlock(vs.0), vs.1)
    case ImportDeclaration(_, _) => Visited(n, [])
    case ExportDeclaration(_) => Visited(n, [])
    case Declaration(k, nm, ms) =>
      var vn := VisitIdentifiers(chk, imports, nm);
      var vm := VisitAll(chk, imports, ms);
      Visited(Declaration(k, vn.node, vm.0), vn.claims + vm.1)
    case Compound(k, ks) =>
      var vs := VisitAll(chk, imports, ks);
      Visited(Compound(k, vs.0), vs.1)
  }

  /** `visitNodes(ns, visitIdentifiers)`. */
  function VisitAll(chk: TypeChecker, imports: seq<Node>, ns: seq<Node>): (r: (seq<Node>, seq<Claim>))
    requires forall i :: i in imports ==> IsNamespaceImport(i)
    ensures |r.0| == |ns|
    decreases ns
  {
    if ns == [] then ([], [])
    else
      var v := VisitIdentifiers(chk, imports, ns[0]);
      var rest := VisitAll(chk, imports, ns[1..]);
      ([v.node] + rest.0, v.claims + rest.1)
  }

  /** Import declarations are returned as they are, and nothing below them is visited. */
  lemma ImportDeclarationUntouched(chk: TypeChecker, imports: seq<Node>, n: Node)
    requires forall i :: i in imports ==> IsNamespaceImport(i)
    requires n.ImportDeclaration?
    ensures VisitIdentifiers(chk, imports, n) == Visited(n, [])
  {
  }

  /**
   * A node is replaced only when it is a qualified name or property access with a plain
   * identifier on its left, and then by its own right identifier; the one claim made names
   * that identifier's text under the specifier of the first namespace import bound to the
   * left identifier's symbol, and the name does not resolve on its own.
   */
  lemma InlinedOnlyWhen(chk: TypeChecker, imports: seq<Node>, n: Node)
    requires forall i :: i in imports ==> IsNamespaceImport(i)
    requires Inline(chk, imports, n).Some?
    ensures !n.ImportDeclaration? ==> VisitIdentifiers(chk, imports, n).claims == [Inline(chk, imports, n).value.0]
    ensures var (claim, right) := Inline(chk, imports, n).value;
      && (n.QualifiedName? || n.PropertyAccess?)
      && (n.QualifiedName? ==> n.left.Identifier? && right == n.right)
      && (n.PropertyAccess? ==> n.expression.Identifier? && right == n.name)
      && (!n.ImportDeclaration? ==> VisitIdentifiers(chk, imports, n).node == right)
      && claim.importName == IdText(right) != ""
      && chk.resolveName(claim.importName, n, ExcludeGlobals(claim.importName)).None?
      && exists imp, s ::
           && imp in imports
           && chk.symbolAtLocation(Candidate(n).value.0) == Some(s)
           && MatchingImport(chk, imports, s) == Some(imp)
           && claim.specifier == imp.moduleSpecifier
  {
    var left := Candidate(n).value.0;
    var s := chk.symbolAtLocation(left).value;
    var imp := MatchingImport(chk, imports, s).value;
    assert imp in imports;
  }

  /**
   * Conversely, a candidate whose name does not resolve and whose left symbol is bound by
   * a namespace import is inlined.
   */
  lemma InlinedWhen(chk: TypeChecker, imports: seq<Node>, n: Node, s: Symbol, imp: Node)
    requires forall i :: i in imports ==> IsNamespaceImport(i)
    requires Candidate(n).Some?
    requires chk.symbolAtLocation(Candidate(n).value.0) == Some(s)
    requires IdText(Candidate(n).value.1) != ""
    requires chk.resolveName(IdText(Candidate(n).value.1), n, ExcludeGlobals(IdText(Candidate(n).value.1))).None?
    requires imp in imports && chk.symbolAtLocation(BoundIdentifier(imp)) == Some(s)
    ensures VisitIdentifiers(chk, imports, n).node == Candidate(n).value.1
  {
    assert MatchingImport(chk, imports, s).Some?;
  }

  /** A node that is not inlined is rebuilt from its visited children. */
  lemma NotInlinedVisitsChildren(chk: TypeChecker, imports: seq<Node>, n: Node)
    requires forall i :: i in imports ==> IsNamespaceImport(i)
    requires !n.ImportDeclaration? && Inline(chk, imports, n).None?
    ensures VisitIdentifiers(chk, imports, n) == VisitEachChild(chk, imports, n)
    ensures SameKind(n, VisitIdentifiers(chk, imports, n).node)
  {
  }

  /** `excludeGlobals` is set exactly for the names `Symbol` and `Node`. */
  lemma ExcludeGlobalsExactly(rhsName: string)
    ensures ExcludeGlobals(rhsName) <==> rhsName in {"Symbol", "Node"}
  {
  }

  /** Every claim names the specifier of one of the file's namespace imports. */
  lemma {:induction false} ClaimsFromImports(chk: TypeChecker, imports: seq<Node>, n: Node)
    requires forall i :: i in imports ==> IsNamespaceImport(i)
    ensures forall c :: c in VisitIdentifiers(chk, imports, n).claims ==>
              c.importName != "" && exists i :: i in imports && i.moduleSpecifier == c.specifier
    decreases n, 1
  {
    if !n.ImportDeclaration? && Inline(chk, imports, n).None? {
      ClaimsFromImportsBelow(chk, imports, n);
    } else if !n.ImportDeclaration? {
      InlinedOnlyWhen(chk, imports, n);
    }
  }

  lemma {:induction false} ClaimsFromImportsBelow(chk: TypeChecker, imports: seq<Node>, n: Node)
    requires forall i :: i in imports ==> IsNamespaceImport(i)
    ensures forall c :: c in VisitEachChild(chk, imports, n).claims ==>
              c.importName != "" && exists i :: i in imports && i.moduleSpecifier == c.specifier
    decreases n, 0
  {
    match n
    case Identifier(_, _) =>
    case StringLiteral(_) =>
    case QualifiedName(l, r) =>
      ClaimsFromImports(chk, imports, l);
      ClaimsFromImports(chk, imports, r);
    case PropertyAccess(e, nm) =>
      ClaimsFromImports(chk, imports, e);
      ClaimsFromImports(chk, imports, nm);
    case TypeReference(tn, args) =>
      ClaimsFromImports(chk, imports, tn);
      ClaimsFromImportsAll(chk, imports, args);
    case TypeQuery(e) =>
      ClaimsFromImports(chk, imports, e);
    case ModuleDeclaration(nm, body) =>
      ClaimsFromImports(chk, imports, nm);
      if body.Some? {
        ClaimsFromImports(chk, imports, body.value);
      }
    case ModuleBlock(ss) =>
      ClaimsFromImportsAll(chk, imports, ss);
    case ImportDeclaration(_, _) =>
    case ExportDeclaration(_) =>
    case Declaration(_, nm, ms) =>
      ClaimsFromImports(chk, imports, nm);
      ClaimsFromImportsAll(chk, imports, ms);
    case Compound(_, ks) =>
      ClaimsFromImportsAll(chk, imports, ks);
  }

  lemma {:induction false} ClaimsFromImportsAll(chk: TypeChecker, imports: seq<Node>, ns: seq<Node>)
    requires forall i :: i in imports ==> IsNamespaceImport(i)
    ensures forall c :: c in VisitAll(chk, imports, ns).1 ==>
              c.importName != "" && exists i :: i in imports && i.moduleSpecifier == c.specifier
    decreases ns
  {
    if ns != [] {
      ClaimsFromImports(chk, imports, ns[0]);
      ClaimsFromImportsAll(chk, imports, ns[1..]);
    }
  }

  /**
   * The `syntheticImports` map: a `Map<string, Set<string>>`, kept as the specifiers in
   * insertion order (the order `forEach` visits them) and, per specifier, its names in
   * insertion order.
   */
  class SyntheticImports {
    var specifiers: seq<string>
    var importNames: map<string, seq<string>>

    ghost predicate Valid()
      reads this
    {
      && Distinct(specifiers)
      && (forall sp :: sp in importNames <==> sp in specifiers)
      && (forall sp :: sp in importNames ==> Distinct(importNames[sp]) && importNames[sp] != [])
    }

    constructor ()
      ensures Valid() && specifiers == [] && importNames == map[]
      ensures Replayed(specifiers, importNames, [])
    {
      specifiers := [];
      importNames := map[];
    }

    /** `addSyntheticImport`. */
    method Add(specifier: string, importName: string)
      requires Valid()
      modifies this
      ensures Valid()
      ensures specifiers == AddOnce(old(specifiers), specifier)
      ensures importNames == old(importNames)[specifier := AddOnce(if specifier in old(importNames) then old(importNames)[specifier] else [], importName)]
    {
      var synthMap := if specifier in importNames then importNames[specifier] else [];
      specifiers := AddOnce(specifiers, specifier);
      importNames := importNames[specifier := AddOnce(synthMap, importName)];
    }
  }

  /** The specifiers the claims mention, in order of first mention. */
  function SpecifiersOf(claims: seq<Claim>): seq<string>
  {
    if claims == [] then [] else AddOnce(SpecifiersOf(claims[..|claims| - 1]), claims[|claims| - 1].specifier)
  }

  /** The names claimed under `specifier`, in order of first claim. */
  function NamesOf(claims: seq<Claim>, specifier: string): seq<string>
  {
    if claims == [] then []
    else
      var last := claims[|claims| - 1];
      var earlier := NamesOf(claims[..|claims| - 1], specifier);
      if last.specifier == specifier then AddOnce(earlier, last.importName) else earlier
  }

  /** The map after all claims: every claimed specifier mapped to its names. */
  ghost predicate Replayed(specifiers: seq<string>, importNames: map<string, seq<string>>, claims: seq<Claim>) {
    && specifiers == SpecifiersOf(claims)
    && (forall sp :: sp in importNames <==> sp in specifiers)
    && (forall sp :: sp in importNames ==> importNames[sp] == NamesOf(claims, sp))
  }

  /** Every specifier the claims mention, mapped to its names. */
  function NamesMap(claims: seq<Claim>): map<string, seq<string>> {
    var specifiers := SpecifiersOf(claims);
    map sp | sp in specifiers :: NamesOf(claims, sp)
  }

  lemma ReplayedIsNamesMap(specifiers: seq<string>, importNames: map<string, seq<string>>, claims: seq<Claim>)
    requires Replayed(specifiers, importNames, claims)
    ensures importNames == NamesMap(claims)
  {
  }

  ghost predicate Holds(synth: SyntheticImports, claims: seq<Claim>)
    reads synth
  {
    Replayed(synth.specifiers, synth.importNames, claims)
  }

  /** One more `addSyntheticImport` call extends the replayed map by that claim. */
  lemma ReplayStep(specifiers: seq<string>, importNames: map<string, seq<string>>, claims: seq<Claim>, c: Claim)
    requires Replayed(specifiers, importNames, claims)
    ensures Replayed(AddOnce(specifiers, c.specifier),
                     importNames[c.specifier := AddOnce(if c.specifier in importNames then importNames[c.specifier] else [], c.importName)],
                     claims + [c])
  {
    var cs := claims + [c];
    assert cs[..|cs| - 1] == claims;
    assert SpecifiersOf(cs) == AddOnce(specifiers, c.specifier);
    var m := importNames[c.specifier := AddOnce(if c.specifier in importNames then importNames[c.specifier] else [], c.importName)];
    forall sp | sp in m
      ensures m[sp] == NamesOf(cs, sp)
    {
      if sp != c.specifier {
        NamesOfOther(claims, c, sp);
      } else {
        if c.specifier !in importNames {
          NamesOfUnclaimed(claims, sp);
        }
        NamesOfSame(claims, c);
      }
    }
  }

  /** A specifier no claim mentions has no names. */
  lemma {:induction false} NamesOfUnclaimed(claims: seq<Claim>, sp: string)
    requires sp !in SpecifiersOf(claims)
    ensures NamesOf(claims, sp) == []
  {
    if claims != [] {
      NamesOfUnclaimed(claims[..|claims| - 1], sp);
    }
  }

  /** A specifier is in the map exactly when some claim names it. */
  lemma {:induction false} SpecifiersOfMembers(claims: seq<Claim>, sp: string)
    ensures sp in SpecifiersOf(claims) <==> exists c :: c in claims && c.specifier == sp
  {
    if claims != [] {
      var init := claims[..|claims| - 1];
      SpecifiersOfMembers(init, sp);
      assert claims == init + [claims[|claims| - 1]];
      if exists c :: c in init && c.specifier == sp {
        var c :| c in init && c.specifier == sp;
        assert c in claims;
      }
    }
  }

  /**
   * A name is listed under a specifier exactly when some claim pairs them: inlined names
   * are added to the set of the matching specifier, and every set is free of repeats.
   */
  lemma {:induction false} NamesOfMembers(claims: seq<Claim>, sp: string, name: string)
    ensures name in NamesOf(claims, sp) <==> Claim(sp, name) in claims
    ensures Distinct(NamesOf(claims, sp))
  {
    if claims != [] {
      var init := claims[..|claims| - 1];
      NamesOfMembers(init, sp, name);
      assert claims == init + [claims[|claims| - 1]];
    }
  }

  /** A specifier's names change only through claims that mention it. */
  lemma NamesOfSame(claims: seq<Claim>, c: Claim)
    ensures NamesOf(claims + [c], c.specifier) == AddOnce(NamesOf(claims, c.specifier), c.importName)
  {
    assert (claims + [c])[..|claims + [c]| - 1] == claims;
  }

  lemma NamesOfOther(claims: seq<Claim>, c: Claim, sp: string)
    requires c.specifier != sp
    ensures NamesOf(claims + [c], sp) == NamesOf(claims, sp)
  {
    assert (claims + [c])[..|claims + [c]| - 1] == claims;
  }

  /** Replays the claims in order, as `visitIdentifiers` makes them. */
  method AddAll(synth: SyntheticImports, claims: seq<Claim>)
    requires synth.Valid() && Holds(synth, [])
    modifies synth
    ensures synth.Valid() && Holds(synth, claims)
  {
    var i := 0;
    while i < |claims|
      invariant 0 <= i <= |claims|
      invariant synth.Valid() && Holds(synth, claims[..i])
    {
      assert claims[..i + 1] == claims[..i] + [claims[i]];
      ReplayStep(synth.specifiers, synth.importNames, claims[..i], claims[i]);
      synth.Add(claims[i].specifier, claims[i].importName);
      i := i + 1;
    }
    assert claims[..i] == claims;
  }

  /** One `import { names } from "specifier"` per specifier, in the map's order. */
  function NamedImportsFor(specifiers: seq<string>, importNames: map<string, seq<string>>): (r: seq<Node>)
    requires forall sp :: sp in specifiers ==> sp in importNames
    ensures |r| == |specifiers|
    ensures forall k :: 0 <= k < |r| ==> r[k] == NamedImportDeclaration(importNames[specifiers[k]], specifiers[k])
  {
    if specifiers == [] then []
    else NamedImportsFor(specifiers[..|specifiers| - 1], importNames)
         + [NamedImportDeclaration(importNames[specifiers[|specifiers| - 1]], specifiers[|specifiers| - 1])]
  }

  /** The `forEach` over the map: one named import per specifier, in the map's order. */
  method NewImportStatements(synth: SyntheticImports) returns (statements: seq<Node>)
    requires synth.Valid()
    ensures statements == NamedImportsFor(synth.specifiers, synth.importNames)
  {
    statements := [];
    var i := 0;
    while i < |synth.specifiers|
      invariant 0 <= i <= |synth.specifiers|
      invariant statements == NamedImportsFor(synth.specifiers[..i], synth.importNames)
    {
      assert synth.specifiers[..i + 1][..i] == synth.specifiers[..i];
      statements := statements + [NamedImportDeclaration(synth.importNames[synth.specifiers[i]], synth.specifiers[i])];
      i := i + 1;
    }
    assert synth.specifiers[..i] == synth.specifiers;
  }

  /**
   * `transformSourceFile`: the statements are visited, the claims recorded, one named
   * import per specifier built, and the new imports followed by the visited statements
   * pruned.
   */
  method TransformSourceFile(chk: TypeChecker, file: SourceFile) returns (r: SourceFile)
    ensures var imports := Pruner.GetNamespaceImports(file.statements);
      var visited := VisitAll(chk, imports, file.statements);
      r == SourceFile(file.fileName, Pruner.RemoveUnusedNamespaceImports(
             NamedImportsFor(SpecifiersOf(visited.1), NamesMap(visited.1)) + visited.0))
  {
    var imports := Pruner.GetNamespaceImports(file.statements);
    var synth := new SyntheticImports();
    var visited := VisitAll(chk, imports, file.statements);
    AddAll(synth, visited.1);
    var newImportStatements := NewImportStatements(synth);
    ReplayedIsNamesMap(synth.specifiers, synth.importNames, visited.1);
    r := SourceFile(file.fileName, Pruner.RemoveUnusedNamespaceImports(newImportStatements + visited.0));
  }
}
