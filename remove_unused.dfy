/**
 * The syntactic pruner: drops every `import * as x` whose bound name `x` occurs as a plain
 * identifier in no other statement. Statements are identified by their index in the list,
 * which is what the object identity tests (`s !== i`, `elem === s`) distinguish.
 */
module Pruner {
  import opened Wrappers
  import opened Syntax

  /** `getNamespaceImports`: the namespace import declarations, in their original order. */
  function GetNamespaceImports(statements: seq<Node>): (r: seq<Node>)
    ensures forall s :: s in r ==> s in statements && IsNamespaceImport(s)
    ensures |r| <= |statements|
  {
    if statements == [] then []
    else (if IsNamespaceImport(statements[0]) then [statements[0]] else []) + GetNamespaceImports(statements[1..])
  }

  /** Only namespace imports are kept, and the split of the input is the split of the output. */
  lemma {:induction false} GetNamespaceImportsAppend(a: seq<Node>, b: seq<Node>)
    ensures GetNamespaceImports(a + b) == GetNamespaceImports(a) + GetNamespaceImports(b)
    decreases |a|
  {
    if a == [] {
      assert a + b == b;
    } else {
      assert (a + b)[1..] == a[1..] + b;
      GetNamespaceImportsAppend(a[1..], b);
    }
  }

  /** A single statement is kept exactly when it is a namespace import. */
  lemma GetNamespaceImportsSingle(s: Node)
    ensures GetNamespaceImports([s]) == if IsNamespaceImport(s) then [s] else []
  {
    assert [s][1..] == [];
  }

  /** Every namespace import of the input is in the result. */
  lemma {:induction false} GetNamespaceImportsComplete(statements: seq<Node>, s: Node)
    requires s in statements && IsNamespaceImport(s)
    ensures s in GetNamespaceImports(statements)
    decreases |statements|
  {
    if statements[0] != s {
      GetNamespaceImportsComplete(statements[1..], s);
    }
  }

  /**
   * `checkNode` of `containsReferenceTo(name)`: `n` is an identifier spelled `name` that is
   * not the right side of a qualified name or property access, or some node below it is.
   */
  function ContainsReferenceTo(name: string, n: Node, rightOfAccess: bool): bool
    decreases n, 1
  {
    (n.Identifier? && n.text == name && !rightOfAccess) || ChildContainsReferenceTo(name, n)
  }

  /** `forEachChild(n, containsReferenceTo(name))`: some child of `n` contains a reference. */
  function ChildContainsReferenceTo(name: string, n: Node): bool
    decreases n, 0
  {
    match n
    case Identifier(_, _) => false
    case StringLiteral(_) => false
    case QualifiedName(l, r) => ContainsReferenceTo(name, l, false) || ContainsReferenceTo(name, r, true)
    case PropertyAccess(e, nm) => ContainsReferenceTo(name, e, false) || ContainsReferenceTo(name, nm, true)
    case TypeReference(tn, args) => ContainsReferenceTo(name, tn, false) || AnyContainsReferenceTo(name, args)
    case TypeQuery(e) => ContainsReferenceTo(name, e, false)
    case ModuleDeclaration(nm, body) =>
      ContainsReferenceTo(name, nm, false) || (body.Some? && ContainsReferenceTo(name, body.value, false))
    case ModuleBlock(ss) => AnyContainsReferenceTo(name, ss)
    case ImportDeclaration(clause, _) => clause.Some? && ClauseContainsReferenceTo(name, clause.value)
    case ExportDeclaration(_) => false
    case Declaration(_, nm, ms) => ContainsReferenceTo(name, nm, false) || AnyContainsReferenceTo(name, ms)
    case Compound(_, ks) => AnyContainsReferenceTo(name, ks)
  }

  function AnyContainsReferenceTo(name: string, ns: seq<Node>): bool
    decreases ns
  {
    ns != [] && (ContainsReferenceTo(name, ns[0], false) || AnyContainsReferenceTo(name, ns[1..]))
  }

  function ClauseContainsReferenceTo(name: string, c: ImportClause): bool
    decreases c
  {
    || (c.name.Some? && ContainsReferenceTo(name, c.name.value, false))
    || (c.namedBindings.Some? &&
        match c.namedBindings.value
        case NamespaceImport(nm) => ContainsReferenceTo(name, nm, false)
        case NamedImports(els) => AnyContainsReferenceTo(name, els))
  }

  /** `AnyContainsReferenceTo` holds exactly when one of the nodes contains a reference. */
  lemma {:induction false} AnyContainsReferenceToIff(name: string, ns: seq<Node>)
    ensures AnyContainsReferenceTo(name, ns) <==> exists k :: 0 <= k < |ns| && ContainsReferenceTo(name, ns[k], false)
    decreases |ns|
  {
    if ns != [] {
      AnyContainsReferenceToIff(name, ns[1..]);
      if AnyContainsReferenceTo(name, ns[1..]) {
        var k :| 0 <= k < |ns[1..]| && ContainsReferenceTo(name, ns[1..][k], false);
        assert ContainsReferenceTo(name, ns[k + 1], false);
      }
      forall k | 1 <= k < |ns| && ContainsReferenceTo(name, ns[k], false)
        ensures AnyContainsReferenceTo(name, ns[1..])
      {
        assert ns[1..][k - 1] == ns[k];
      }
    }
  }

  /** The right side of an access never counts: only its left side can hold the reference. */
  lemma RightOfAccessIsNoReference(name: string, left: Node, pos: int)
    ensures ChildContainsReferenceTo(name, QualifiedName(left, Identifier(name, pos)))
            == ContainsReferenceTo(name, left, false)
    ensures ChildContainsReferenceTo(name, PropertyAccess(left, Identifier(name, pos)))
            == ContainsReferenceTo(name, left, false)
  {
    assert !ContainsReferenceTo(name, Identifier(name, pos), true);
  }

  /** The same identifier elsewhere is a reference. */
  lemma LeftOfAccessIsReference(name: string, right: Node, pos: int)
    ensures ChildContainsReferenceTo(name, QualifiedName(Identifier(name, pos), right))
    ensures ChildContainsReferenceTo(name, PropertyAccess(Identifier(name, pos), right))
  {
  }

  /**
   * The filter callback of `unusedImports`: statement `i` is a namespace import and no
   * statement other than `i` itself contains a reference to its bound name.
   */
  predicate Unused(statements: seq<Node>, i: int)
    requires 0 <= i < |statements|
  {
    && IsNamespaceImport(statements[i])
    && !exists j :: 0 <= j < |statements| && j != i && ChildContainsReferenceTo(BoundName(statements[i]), statements[j])
  }

  /** The statements from index `i` on that are not unused, in order. */
  function KeepFrom(statements: seq<Node>, i: nat): seq<Node>
    requires i <= |statements|
    decreases |statements| - i
  {
    if i == |statements| then []
    else (if Unused(statements, i) then [] else [statements[i]]) + KeepFrom(statements, i + 1)
  }

  /** `removeUnusedNamespaceImports`. */
  function RemoveUnusedNamespaceImports(statements: seq<Node>): (r: seq<Node>)
    ensures |r| <= |statements|
    ensures GetNamespaceImports(statements) == [] ==> r == statements
  {
    if |GetNamespaceImports(statements)| == 0 then statements
    else
      KeepFromLength(statements, 0);
      KeepFrom(statements, 0)
  }

  lemma {:induction false} KeepFromLength(statements: seq<Node>, i: nat)
    requires i <= |statements|
    ensures |KeepFrom(statements, i)| <= |statements| - i
    decreases |statements| - i
  {
    if i < |statements| {
      KeepFromLength(statements, i + 1);
    }
  }

  /** The indices from `i` on whose statements survive, in increasing order. */
  ghost function KeptIndices(statements: seq<Node>, i: nat): seq<nat>
    requires i <= |statements|
    decreases |statements| - i
  {
    if i == |statements| then []
    else (if Unused(statements, i) then [] else [i]) + KeptIndices(statements, i + 1)
  }

  ghost predicate StrictlyIncreasing(ks: seq<nat>) {
    forall a, b :: 0 <= a < b < |ks| ==> ks[a] < ks[b]
  }

  /**
   * The result is the input restricted to an increasing list of indices (an
   * order-preserving subsequence), and an index is in that list exactly when its
   * statement is not an unused namespace import.
   */
  lemma {:induction false} KeepFromIsSubsequence(statements: seq<Node>, i: nat)
    requires i <= |statements|
    ensures var ks := KeptIndices(statements, i);
      && |KeepFrom(statements, i)| == |ks|
      && StrictlyIncreasing(ks)
      && (forall k :: 0 <= k < |ks| ==> i <= ks[k] < |statements| && KeepFrom(statements, i)[k] == statements[ks[k]])
    decreases |statements| - i
  {
    if i < |statements| {
      KeepFromIsSubsequence(statements, i + 1);
      if Unused(statements, i) {
        assert KeptIndices(statements, i) == KeptIndices(statements, i + 1);
        assert KeepFrom(statements, i) == KeepFrom(statements, i + 1);
      } else {
        assert KeptIndices(statements, i) == [i] + KeptIndices(statements, i + 1);
        assert KeepFrom(statements, i) == [statements[i]] + KeepFrom(statements, i + 1);
        KeepStep(statements, i, KeptIndices(statements, i + 1), KeepFrom(statements, i + 1));
      }
    }
  }

  /** An index from `i` on is kept exactly when its statement is not unused. */
  lemma {:induction false} KeptIndicesMembers(statements: seq<Node>, i: nat, j: nat)
    requires i <= j < |statements|
    ensures j in KeptIndices(statements, i) <==> !Unused(statements, j)
    decreases |statements| - i
  {
    KeptIndicesBounds(statements, i + 1);
    if i < j {
      KeptIndicesMembers(statements, i + 1, j);
    }
  }

  lemma {:induction false} KeptIndicesBounds(statements: seq<Node>, i: nat)
    requires i <= |statements|
    ensures forall k :: k in KeptIndices(statements, i) ==> i <= k < |statements|
    decreases |statements| - i
  {
    if i < |statements| {
      KeptIndicesBounds(statements, i + 1);
    }
  }

  /** One kept statement in front of a kept suffix. */
  lemma KeepStep(statements: seq<Node>, i: nat, rest: seq<nat>, kept: seq<Node>)
    requires i < |statements|
    requires |kept| == |rest| && StrictlyIncreasing(rest)
    requires forall k :: 0 <= k < |rest| ==> i + 1 <= rest[k] < |statements| && kept[k] == statements[rest[k]]
    ensures var ks := [i] + rest;
      && |[statements[i]] + kept| == |ks|
      && StrictlyIncreasing(ks)
      && (forall k :: 0 <= k < |ks| ==> i <= ks[k] < |statements| && ([statements[i]] + kept)[k] == statements[ks[k]])
  {
    var ks := [i] + rest;
    forall a, b | 0 <= a < b < |ks|
      ensures ks[a] < ks[b]
    {
      if a > 0 {
        assert ks[a] == rest[a - 1] && ks[b] == rest[b - 1];
      }
    }
  }

  /**
   * The pruner's result: an order-preserving subsequence of the input that keeps statement
   * `j` exactly when it is not a namespace import that no other statement references.
   */
  lemma RemoveUnusedIsSubsequence(statements: seq<Node>)
    ensures var r := RemoveUnusedNamespaceImports(statements);
      exists ks: seq<nat> ::
        && |r| == |ks|
        && StrictlyIncreasing(ks)
        && (forall k :: 0 <= k < |ks| ==> ks[k] < |statements| && r[k] == statements[ks[k]])
        && (forall j :: 0 <= j < |statements| ==> (j in ks <==> !Unused(statements, j)))
  {
    var r := RemoveUnusedNamespaceImports(statements);
    if |GetNamespaceImports(statements)| == 0 {
      var ks := seq(|statements|, k => k);
      forall j | 0 <= j < |statements|
        ensures !Unused(statements, j)
      {
        if IsNamespaceImport(statements[j]) {
          GetNamespaceImportsComplete(statements, statements[j]);
        }
      }
      forall j | 0 <= j < |statements|
        ensures j in ks
      {
        assert ks[j] == j;
      }
      assert |r| == |ks| && StrictlyIncreasing(ks);
    } else {
      KeepFromIsSubsequence(statements, 0);
      var ks := KeptIndices(statements, 0);
      forall j | 0 <= j < |statements|
        ensures j in ks <==> !Unused(statements, j)
      {
        KeptIndicesMembers(statements, 0, j);
      }
      assert forall k :: 0 <= k < |ks| ==> ks[k] < |statements| && r[k] == statements[ks[k]];
    }
  }

  /** Only namespace imports are ever dropped. */
  lemma OnlyNamespaceImportsDropped(statements: seq<Node>, j: nat)
    requires j < |statements| && !IsNamespaceImport(statements[j])
    ensures statements[j] in RemoveUnusedNamespaceImports(statements)
  {
    RemoveUnusedIsSubsequence(statements);
    var r := RemoveUnusedNamespaceImports(statements);
    var ks: seq<nat> :| && |r| == |ks|
        && (forall k :: 0 <= k < |ks| ==> ks[k] < |statements| && r[k] == statements[ks[k]])
        && (forall j :: 0 <= j < |statements| ==> (j in ks <==> !Unused(statements, j)));
    assert j in ks;
    var k :| 0 <= k < |ks| && ks[k] == j;
    assert r[k] == statements[j];
  }

  /**
   * A namespace import is never kept alive by its own statement: standing alone, it is
   * dropped, although its own clause holds an identifier spelled with its bound name.
   */
  lemma OwnStatementExcluded(name: string, pos: int, specifier: string)
    ensures var imp := ImportDeclaration(Some(ImportClause(None, Some(NamespaceImport(Identifier(name, pos))))), specifier);
      && ChildContainsReferenceTo(name, imp)
      && RemoveUnusedNamespaceImports([imp]) == []
  {
    var imp := ImportDeclaration(Some(ImportClause(None, Some(NamespaceImport(Identifier(name, pos))))), specifier);
    GetNamespaceImportsSingle(imp);
    assert Unused([imp], 0);
    assert KeepFrom([imp], 0) == [] + KeepFrom([imp], 1);
  }
}
