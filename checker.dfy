/**
 * The type-checker queries the transforms make, as an oracle: the model never resolves
 * names itself, it only asks these functions, exactly where the source asks the checker.
 */
module Checker {
  import opened Wrappers
  import opened Syntax

  /** An abstract symbol identity, meaningful within one program snapshot. */
  type Symbol = nat

  datatype TypeChecker = TypeChecker(
    /** `getSymbolAtLocation(node)`. */
    symbolAtLocation: Node -> Option<Symbol>,
    /** `resolveName(name, location, SymbolFlags.Type | SymbolFlags.Namespace, excludeGlobals)`. */
    resolveName: (string, Node, bool) -> Option<Symbol>,
    /** The `parent` field of a symbol: the symbol of its container. */
    parent: Symbol -> Option<Symbol>,
    /** The `declarations` of a symbol. */
    declarations: Symbol -> seq<Node>,
    /** `symbolToEntityName(symbol, SymbolFlags.Namespace, file, UseOnlyExternalAliasing)`. */
    symbolToEntityName: Symbol -> Option<Node>,
    /** `symbolToExpression(symbol, SymbolFlags.Namespace, file, UseOnlyExternalAliasing)`. */
    symbolToExpression: Symbol -> Node
  )
}
