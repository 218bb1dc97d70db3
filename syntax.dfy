/**
 * The TypeScript syntax the transforms look at. Node kinds the transforms test for have
 * their own constructor; every other node is a `Declaration` (when it has a name that
 * `getNameOfDeclaration` returns) or a `Compound` with its children in source order.
 * Nodes made by the transforms (`createIdentifier`, `createImportDeclaration`, ...) are
 * values built with these constructors; synthesized identifiers have position -1.
 */
module Syntax {
  import opened Wrappers

  datatype Node =
    | Identifier(text: string, pos: int)
    | StringLiteral(text: string)
    | QualifiedName(left: Node, right: Node)
    | PropertyAccess(expression: Node, name: Node)
    | TypeReference(typeName: Node, typeArguments: seq<Node>)
    | TypeQuery(exprName: Node)
    | ModuleDeclaration(name: Node, body: Option<Node>)
    | ModuleBlock(statements: seq<Node>)
    | ImportDeclaration(importClause: Option<ImportClause>, moduleSpecifier: string)
    | ExportDeclaration(moduleSpecifier: string)
    | Declaration(kind: string, name: Node, members: seq<Node>)
    | Compound(kind: string, children: seq<Node>)

  /** `import d, * as ns from "m"` / `import { a, b } from "m"`. */
  datatype ImportClause = ImportClause(name: Option<Node>, namedBindings: Option<NamedBindings>)

  datatype NamedBindings =
    | NamespaceImport(name: Node)
    | NamedImports(elements: seq<Node>)

  datatype SourceFile = SourceFile(fileName: string, statements: seq<Node>)

  /** `idText`: the text of an identifier (the empty string for any other node). */
  function IdText(n: Node): string {
    if n.Identifier? then n.text else ""
  }

  /** A node made by `createIdentifier`. */
  function SyntheticIdentifier(text: string): Node {
    Identifier(text, -1)
  }

  /** `import * as name from "specifier"`. */
  function NamespaceImportDeclaration(name: string, specifier: string): (r: Node)
    ensures IsNamespaceImport(r) && BoundName(r) == name && r.moduleSpecifier == specifier
  {
    ImportDeclaration(Some(ImportClause(None, Some(NamespaceImport(SyntheticIdentifier(name))))), specifier)
  }

  /** `import { n1, n2, ... } from "specifier"`. */
  function NamedImportDeclaration(names: seq<string>, specifier: string): (r: Node)
    ensures r.ImportDeclaration? && !IsNamespaceImport(r) && r.moduleSpecifier == specifier
  {
    var elements := seq(|names|, i requires 0 <= i < |names| => SyntheticIdentifier(names[i]));
    ImportDeclaration(Some(ImportClause(None, Some(NamedImports(elements)))), specifier)
  }

  /** An import declaration whose clause binds a namespace: `import * as x from "..."`. */
  predicate IsNamespaceImport(s: Node) {
    && s.ImportDeclaration?
    && s.importClause.Some?
    && s.importClause.value.namedBindings.Some?
    && s.importClause.value.namedBindings.value.NamespaceImport?
  }

  /** The identifier a namespace import binds. */
  function BoundIdentifier(s: Node): Node
    requires IsNamespaceImport(s)
  {
    s.importClause.value.namedBindings.value.name
  }

  function BoundName(s: Node): string
    requires IsNamespaceImport(s)
  {
    IdText(BoundIdentifier(s))
  }

  /**
   * `b` has the same node kind as `a` and the same non-node fields: what
   * `visitEachChild` keeps when it rebuilds `a` from visited children.
   */
  predicate SameKind(a: Node, b: Node) {
    match a
    case Identifier(t, p) => b == a
    case StringLiteral(t) => b == a
    case QualifiedName(_, _) => b.QualifiedName?
    case PropertyAccess(_, _) => b.PropertyAccess?
    case TypeReference(_, args) => b.TypeReference? && |b.typeArguments| == |args|
    case TypeQuery(_) => b.TypeQuery?
    case ModuleDeclaration(_, body) => b.ModuleDeclaration? && b.body.Some? == body.Some?
    case ModuleBlock(ss) => b.ModuleBlock? && |b.statements| == |ss|
    case ImportDeclaration(_, _) => b.ImportDeclaration?
    case ExportDeclaration(_) => b == a
    case Declaration(k, _, ms) => b.Declaration? && b.kind == k && |b.members| == |ms|
    case Compound(k, ks) => b.Compound? && b.kind == k && |b.children| == |ks|
  }
}
