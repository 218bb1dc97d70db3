/**
 * The explicitify visitor: every identifier that is not a declaration's name and not the
 * right side of an access, and whose symbol's parent was declared by a namespace, is
 * replaced by the fully qualified name the checker builds for it.
 *
 * A node's parent is passed down as a `Parent` value: the parent's kind, and whether the
 * node is that parent's declared name or the right side of that access.
 */
module Explicitify {
  import opened Wrappers
  import opened Syntax
  import opened Checker

  datatype Parent =
    | DeclarationName      // the name `getNameOfDeclaration` returns for the parent
    | RightOfAccess        // `parent.right` of a qualified name, `parent.name` of a property access
    | InQualifiedName      // the left side of a qualified name
    | InTypeReference
    | InTypeQuery
    | Other
  {
    /** The identifiers the visitor looks at. */
    predicate Eligible() {
      this != DeclarationName && this != RightOfAccess
    }

    /** Parents under which the entity-name form replaces the identifier. */
    predicate WantsEntityName() {
      this == InQualifiedName || this == InTypeReference || this == InTypeQuery
    }
  }

  /** `parent.declarations.some(isModuleDeclaration)`. */
  predicate HasModuleDeclaration(ds: seq<Node>) {
    exists k :: 0 <= k < |ds| && ds[k].ModuleDeclaration?
  }

  /** The symbol whose container is declared by a namespace, if the identifier has one. */
  function NamespaceMember(chk: TypeChecker, n: Node): Option<Symbol> {
    var sym := chk.symbolAtLocation(n);
    if sym.Some? && chk.parent(sym.value).Some? && HasModuleDeclaration(chk.declarations(chk.parent(sym.value).value))
    then sym
    else None
  }

  /** The node `visitChildren` returns in place of `n` without visiting it, if any. */
  function Replacement(chk: TypeChecker, n: Node, parent: Parent): Option<Node> {
    if n.Identifier? && parent.Eligible() then
      var sym := NamespaceMember(chk, n);
      if sym.Some? then
        var newName := chk.symbolToEntityName(sym.value);
        if newName.Some? && !newName.value.Identifier? then
          if parent.WantsEntityName() then newName else Some(chk.symbolToExpression(sym.value))
        else None
      else None
    else None
  }

  /** `visitChildren`. */
  function Visit(chk: TypeChecker, n: Node, parent: Parent): Node
    decreases n, 1
  {
    match Replacement(chk, n, parent)
    case Some(m) => m
    case None => VisitEachChild(chk, n)
  }

  /** `visitEachChild(n, visitChildren)`: `n` rebuilt from its visited children. */
  function VisitEachChild(chk: TypeChecker, n: Node): (r: Node)
    ensures SameKind(n, r)
    decreases n, 0
  {
    match n
    case Identifier(_, _) => n
    case StringLiteral(_) => n
    case QualifiedName(l, r) => QualifiedName(Visit(chk, l, InQualifiedName), Visit(chk, r, RightOfAccess))
    case PropertyAccess(e, nm) => PropertyAccess(Visit(chk, e, Other), Visit(chk, nm, RightOfAccess))
    case TypeReference(tn, args) => TypeReference(Visit(chk, tn, InTypeReference), VisitAll(chk, args, InTypeReference))
    case TypeQuery(e) => TypeQuery(Visit(chk, e, InTypeQuery))
    case ModuleDeclaration(nm, body) =>
      ModuleDeclaration(Visit(chk, nm, DeclarationName), if body.Some? then Some(Visit(chk, body.value, Other)) else None)
    case ModuleBlock(ss) => ModuleBlock(VisitAll(chk, ss, Other))
    case ImportDeclaration(clause, spec) =>
      ImportDeclaration(if clause.Some? then Some(VisitClause(chk, clause.value)) else None, spec)
    case ExportDeclaration(_) => n
    case Declaration(k, nm, ms) => Declaration(k, Visit(chk, nm, DeclarationName), VisitAll(chk, ms, Other))
    case Compound(k, ks) => Compound(k, VisitAll(chk, ks, Other))
  }

  function VisitAll(chk: TypeChecker, ns: seq<Node>, parent: Parent): (r: seq<Node>)
    ensures |r| == |ns|
    decreases ns
  {
    if ns == [] then [] else [Visit(chk, ns[0], parent)] + VisitAll(chk, ns[1..], parent)
  }

  /**
   * The identifiers of an import clause are all declaration names: of the clause (the
   * default import), of the namespace import, of each import specifier.
   */
  function VisitClause(chk: TypeChecker, c: ImportClause): ImportClause
    decreases c
  {
    ImportClause(
      if c.name.Some? then Some(Visit(chk, c.name.value, DeclarationName)) else None,
      if c.namedBindings.Some? then
        Some(match c.namedBindings.value
             case NamespaceImport(nm) => NamespaceImport(Visit(chk, nm, DeclarationName))
             case NamedImports(els) => NamedImports(VisitAll(chk, els, DeclarationName)))
      else None)
  }

  /** `transformSourceFile`: the statements visited with the file as their parent. */
  function TransformSourceFile(chk: TypeChecker, file: SourceFile): (r: SourceFile)
    ensures r.fileName == file.fileName && |r.statements| == |file.statements|
  {
    SourceFile(file.fileName, VisitAll(chk, file.statements, Other))
  }

  /** `VisitAll` visits each node on its own. */
  lemma {:induction false} VisitAllPointwise(chk: TypeChecker, ns: seq<Node>, parent: Parent)
    ensures forall k :: 0 <= k < |ns| ==> VisitAll(chk, ns, parent)[k] == Visit(chk, ns[k], parent)
    decreases |ns|
  {
    if ns != [] {
      VisitAllPointwise(chk, ns[1..], parent);
      forall k | 1 <= k < |ns|
        ensures VisitAll(chk, ns, parent)[k] == Visit(chk, ns[k], parent)
      {
        assert ns[1..][k - 1] == ns[k];
      }
    }
  }

  /**
   * Only identifiers are replaced: a node of any other kind comes back with its own kind
   * and its own non-node fields, rebuilt from its visited children.
   */
  lemma OnlyIdentifiersReplaced(chk: TypeChecker, n: Node, parent: Parent)
    requires !n.Identifier?
    ensures SameKind(n, Visit(chk, n, parent))
    ensures Visit(chk, n, parent) == VisitEachChild(chk, n)
  {
  }

  /** An identifier that names its parent declaration, or is the right side of an access, is kept. */
  lemma IneligibleIdentifierKept(chk: TypeChecker, text: string, pos: int, parent: Parent)
    requires parent == DeclarationName || parent == RightOfAccess
    ensures Visit(chk, Identifier(text, pos), parent) == Identifier(text, pos)
  {
  }

  /** The declared name of a declaration or namespace is never rewritten. */
  lemma DeclarationNameKept(chk: TypeChecker, kind: string, text: string, pos: int, members: seq<Node>, parent: Parent)
    ensures Visit(chk, Declaration(kind, Identifier(text, pos), members), parent).name == Identifier(text, pos)
  {
    var d := Declaration(kind, Identifier(text, pos), members);
    assert Visit(chk, d, parent) == VisitEachChild(chk, d);
    IneligibleIdentifierKept(chk, text, pos, DeclarationName);
  }

  /** The right side of a qualified name or property access is never rewritten. */
  lemma RightOfAccessKept(chk: TypeChecker, left: Node, text: string, pos: int, parent: Parent)
    ensures Visit(chk, QualifiedName(left, Identifier(text, pos)), parent).right == Identifier(text, pos)
    ensures Visit(chk, PropertyAccess(left, Identifier(text, pos)), parent).name == Identifier(text, pos)
  {
    var q := QualifiedName(left, Identifier(text, pos));
    var a := PropertyAccess(left, Identifier(text, pos));
    assert Visit(chk, q, parent) == VisitEachChild(chk, q);
    assert Visit(chk, a, parent) == VisitEachChild(chk, a);
    IneligibleIdentifierKept(chk, text, pos, RightOfAccess);
  }

  /**
   * An identifier is replaced exactly when it is eligible, its symbol's parent has a
   * module declaration and the entity name built for the symbol is not a bare identifier;
   * the replacement is that entity name under a qualified name, type reference or type
   * query, and the symbol's expression form anywhere else.
   */
  lemma ReplacementConditions(chk: TypeChecker, text: string, pos: int, parent: Parent)
    ensures var n := Identifier(text, pos);
      var sym := chk.symbolAtLocation(n);
      Visit(chk, n, parent) != n ==>
        && parent.Eligible()
        && sym.Some?
        && chk.parent(sym.value).Some?
        && HasModuleDeclaration(chk.declarations(chk.parent(sym.value).value))
        && chk.symbolToEntityName(sym.value).Some?
        && !chk.symbolToEntityName(sym.value).value.Identifier?
        && Visit(chk, n, parent) == (if parent.WantsEntityName() then chk.symbolToEntityName(sym.value).value
                                     else chk.symbolToExpression(sym.value))
  {
  }

  /** Conversely, when all the conditions hold the identifier is replaced by the chosen form. */
  lemma ReplacementTaken(chk: TypeChecker, text: string, pos: int, parent: Parent, sym: Symbol, owner: Symbol, qualified: Node)
    requires parent.Eligible()
    requires chk.symbolAtLocation(Identifier(text, pos)) == Some(sym)
    requires chk.parent(sym) == Some(owner)
    requires exists k :: 0 <= k < |chk.declarations(owner)| && chk.declarations(owner)[k].ModuleDeclaration?
    requires chk.symbolToEntityName(sym) == Some(qualified) && !qualified.Identifier?
    ensures Visit(chk, Identifier(text, pos), parent)
            == if parent.WantsEntityName() then qualified else chk.symbolToExpression(sym)
  {
  }

  /** No replacement applies anywhere in `n` (as a child of `parent`). */
  ghost predicate NothingToReplace(chk: TypeChecker, n: Node, parent: Parent)
    decreases n, 1
  {
    Replacement(chk, n, parent).None? && NothingToReplaceBelow(chk, n)
  }

  ghost predicate NothingToReplaceBelow(chk: TypeChecker, n: Node)
    decreases n, 0
  {
    match n
    case Identifier(_, _) => true
    case StringLiteral(_) => true
    case QualifiedName(l, r) => NothingToReplace(chk, l, InQualifiedName) && NothingToReplace(chk, r, RightOfAccess)
    case PropertyAccess(e, nm) => NothingToReplace(chk, e, Other) && NothingToReplace(chk, nm, RightOfAccess)
    case TypeReference(tn, args) => NothingToReplace(chk, tn, InTypeReference) && NothingToReplaceInAll(chk, args, InTypeReference)
    case TypeQuery(e) => NothingToReplace(chk, e, InTypeQuery)
    case ModuleDeclaration(nm, body) =>
      NothingToReplace(chk, nm, DeclarationName) && (body.Some? ==> NothingToReplace(chk, body.value, Other))
    case ModuleBlock(ss) => NothingToReplaceInAll(chk, ss, Other)
    case ImportDeclaration(clause, _) => clause.Some? ==> NothingToReplaceInClause(chk, clause.value)
    case ExportDeclaration(_) => true
    case Declaration(_, nm, ms) => NothingToReplace(chk, nm, DeclarationName) && NothingToReplaceInAll(chk, ms, Other)
    case Compound(_, ks) => NothingToReplaceInAll(chk, ks, Other)
  }

  ghost predicate NothingToReplaceInAll(chk: TypeChecker, ns: seq<Node>, parent: Parent)
    decreases ns
  {
    forall k :: 0 <= k < |ns| ==> NothingToReplace(chk, ns[k], parent)
  }

  ghost predicate NothingToReplaceInClause(chk: TypeChecker, c: ImportClause)
    decreases c
  {
    && (c.name.Some? ==> NothingToReplace(chk, c.name.value, DeclarationName))
    && (c.namedBindings.Some? ==>
          match c.namedBindings.value
          case NamespaceImport(nm) => NothingToReplace(chk, nm, DeclarationName)
          case NamedImports(els) => NothingToReplaceInAll(chk, els, DeclarationName))
  }

  /** Where no replacement applies, the visitor gives back the very same tree. */
  lemma {:induction false} NothingToReplaceIsIdentity(chk: TypeChecker, n: Node, parent: Parent)
    requires NothingToReplace(chk, n, parent)
    ensures Visit(chk, n, parent) == n
    decreases n, 1
  {
    NothingBelowIsIdentity(chk, n);
  }

  lemma {:induction false} NothingBelowIsIdentity(chk: TypeChecker, n: Node)
    requires NothingToReplaceBelow(chk, n)
    ensures VisitEachChild(chk, n) == n
    decreases n, 0
  {
    match n
    case Identifier(_, _) =>
    case StringLiteral(_) =>
    case QualifiedName(l, r) =>
      NothingToReplaceIsIdentity(chk, l, InQualifiedName);
      NothingToReplaceIsIdentity(chk, r, RightOfAccess);
    case PropertyAccess(e, nm) =>
      NothingToReplaceIsIdentity(chk, e, Other);
      NothingToReplaceIsIdentity(chk, nm, RightOfAccess);
    case TypeReference(tn, args) =>
      NothingToReplaceIsIdentity(chk, tn, InTypeReference);
      NothingInAllIsIdentity(chk, args, InTypeReference);
    case TypeQuery(e) =>
      NothingToReplaceIsIdentity(chk, e, InTypeQuery);
    case ModuleDeclaration(nm, body) =>
      NothingToReplaceIsIdentity(chk, nm, DeclarationName);
      if body.Some? {
        NothingToReplaceIsIdentity(chk, body.value, Other);
      }
    case ModuleBlock(ss) =>
      NothingInAllIsIdentity(chk, ss, Other);
    case ImportDeclaration(clause, _) =>
      if clause.Some? {
        NothingInClauseIsIdentity(chk, clause.value);
      }
    case ExportDeclaration(_) =>
    case Declaration(_, nm, ms) =>
      NothingToReplaceIsIdentity(chk, nm, DeclarationName);
      NothingInAllIsIdentity(chk, ms, Other);
    case Compound(_, ks) =>
      NothingInAllIsIdentity(chk, ks, Other);
  }

  lemma {:induction false} NothingInAllIsIdentity(chk: TypeChecker, ns: seq<Node>, parent: Parent)
    requires NothingToReplaceInAll(chk, ns, parent)
    ensures VisitAll(chk, ns, parent) == ns
    decreases ns
  {
    if ns != [] {
      NothingToReplaceIsIdentity(chk, ns[0], parent);
      NothingInAllIsIdentity(chk, ns[1..], parent);
      assert [ns[0]] + ns[1..] == ns;
    }
  }

  lemma {:induction false} NothingInClauseIsIdentity(chk: TypeChecker, c: ImportClause)
    requires NothingToReplaceInClause(chk, c)
    ensures VisitClause(chk, c) == c
    decreases c
  {
    if c.name.Some? {
      NothingToReplaceIsIdentity(chk, c.name.value, DeclarationName);
    }
    if c.namedBindings.Some? {
      match c.namedBindings.value
      case NamespaceImport(nm) => NothingToReplaceIsIdentity(chk, nm, DeclarationName);
      case NamedImports(els) => NothingInAllIsIdentity(chk, els, DeclarationName);
    }
  }
}
