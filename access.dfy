/** `traverseAccess` (utils/traverse_access.ts): from an identifier to the property or
    element access it is part of. */
module AccessTraversal {
  import opened Ast

  predicate IsAccessKind(k: SyntaxKind) {
    k.PropertyAccessExpression? || k.ElementAccessExpression?
  }

  /** The identifier's parent when that is a property or element access, else the
      identifier itself; never a higher ancestor. */
  function TraverseAccess(t: Tree, access: NodeId): (r: NodeId)
    requires WellFormed(t) && IsIdentifier(t, access)
    ensures r in t && IsExpressionKind(t[r].kind) && !t[r].kind.SourceFile?
    ensures r == access || r == ParentOf(t, access)
    ensures r == ParentOf(t, access) <==> IsAccessKind(t[ParentOf(t, access)].kind)
    ensures r == access <==> !IsAccessKind(t[ParentOf(t, access)].kind)
    ensures t[r].kind.Identifier? || IsAccessKind(t[r].kind)
  {
    assert NodeOk(t, access);
    var p := ParentOf(t, access);
    if IsAccessKind(t[p].kind) then p else access
  }
}

/** `unwrapParent` (utils/unwrap_parent.ts): climbs through parenthesised and `as`
    expressions. */
module ParentUnwrapping {
  import opened Ast

  predicate IsWrapper(k: SyntaxKind) {
    k.ParenthesizedExpression? || k.AsExpression?
  }

  /** `to` is reached from `from` by zero or more steps, each to a wrapper parent. */
  ghost predicate WrapperPath(t: Tree, from: NodeId, to: NodeId)
    requires WellFormed(t) && from in t
    decreases from
  {
    from == to
    || (!t[from].kind.SourceFile? && IsWrapper(t[ParentOf(t, from)].kind) && WrapperPath(t, ParentOf(t, from), to))
  }

  /** The result is the node or an ancestor reached only through wrappers, and its own
      parent is not a wrapper. The walk ends because parents have smaller ids. */
  function UnwrapParent(t: Tree, node: NodeId): (r: NodeId)
    requires WellFormed(t) && node in t && !t[node].kind.SourceFile?
    ensures r in t && !t[r].kind.SourceFile? && r <= node
    ensures !IsWrapper(t[ParentOf(t, r)].kind)
    ensures WrapperPath(t, node, r)
    decreases node
  {
    var p := ParentOf(t, node);
    if IsWrapper(t[p].kind) then UnwrapParent(t, p) else node
  }

  /** Every step of a wrapper path goes to a wrapper, so a path that moves ends at one. */
  lemma {:induction false} WrapperPathEndsAtWrapper(t: Tree, from: NodeId, to: NodeId)
    requires WellFormed(t) && from in t && WrapperPath(t, from, to) && from != to
    ensures to in t && IsWrapper(t[to].kind)
    decreases from
  {
    var p := ParentOf(t, from);
    assert IsWrapper(t[p].kind) && WrapperPath(t, p, to);
    if p != to {
      WrapperPathEndsAtWrapper(t, p, to);
    }
  }

  /** Exactly one node satisfies the two properties above: the wrapper path ends at the
      first ancestor whose parent is not a wrapper. */
  lemma {:induction false} UnwrapParentUnique(t: Tree, node: NodeId, r: NodeId)
    requires WellFormed(t) && node in t && !t[node].kind.SourceFile?
    requires WrapperPath(t, node, r) && r in t && !t[r].kind.SourceFile?
    requires !IsWrapper(t[ParentOf(t, r)].kind)
    ensures r == UnwrapParent(t, node)
    decreases node
  {
    if r != node {
      var p := ParentOf(t, node);
      assert IsWrapper(t[p].kind) && WrapperPath(t, p, r);
      UnwrapParentUnique(t, p, r);
    }
  }
}
