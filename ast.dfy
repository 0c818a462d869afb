/** The slice of a TypeScript syntax tree the migration reads: node kinds, parent
    pointers, name nodes, spans and the source file each node belongs to.

    Nodes of the whole program live in one map. Their ids are pre-order numbers,
    so a node's parent always has a smaller id; this is what makes every walk up
    the parent chain terminate. */
module Ast {
  import opened Wrappers

  type NodeId = nat

  /** What `node.getSourceFile()` answers: the file's name, whether it is a
      declaration (`.d.ts`) file, and its text. */
  datatype FileInfo = FileInfo(fileName: string, isDeclarationFile: bool, text: string)

  datatype Operator = EqualsToken | OtherOperator

  datatype SyntaxKind =
    | Identifier(text: string)
    | StringLiteral(text: string)
    | PropertyAccessExpression
    | ElementAccessExpression
    | ParenthesizedExpression
    | AsExpression
    | BinaryExpression(operator: Operator)
    | ThisKeyword
    | Block
    | SourceFile
    | ClassDeclaration
    | InterfaceDeclaration
    | PropertyDeclaration
      /** `ts.isFunctionLike`: functions, methods, accessors, constructors, arrows, signatures. */
    | FunctionLike(isArrowFunction: bool)
    | VariableDeclaration
      /** An import specifier; `moduleSpecifier` is the text of its import declaration's
          module specifier (`node.parent.parent.parent.moduleSpecifier`) when that is a
          string literal. Its `name` node is `name`, `propertyName` the `a` of `a as b`. */
    | ImportSpecifier(propertyName: Option<NodeId>, moduleSpecifier: Option<string>)
    | OtherKind(code: nat)

  /** `start` is `node.getStart()` (leading trivia excluded), `end` is `node.getEnd()`;
      `flowNode` is the binder's control-flow node for the node, when it has one. */
  datatype Node = Node(
    kind: SyntaxKind,
    parent: Option<NodeId>,
    name: Option<NodeId>,
    start: nat,
    end: nat,
    file: FileInfo,
    flowNode: Option<nat>)

  /** A `ts.Symbol`: `id` stands for its identity, `declarations` may be undefined. */
  datatype Symbol = Symbol(id: nat, declarations: Option<seq<NodeId>>)

  type Tree = map<NodeId, Node>

  /** Kinds that only occur inside a statement or declaration, never directly under a source file. */
  predicate IsExpressionKind(k: SyntaxKind) {
    k.Identifier? || k.PropertyAccessExpression? || k.ElementAccessExpression? || k.ParenthesizedExpression?
    || k.AsExpression? || k.BinaryExpression? || k.ThisKeyword?
  }

  predicate NodeOk(t: Tree, id: NodeId)
    requires id in t
  {
    var n := t[id];
    && (n.parent.None? <==> n.kind.SourceFile?)
    && (n.parent.Some? ==> n.parent.value in t && n.parent.value < id && t[n.parent.value].file == n.file)
    && (IsExpressionKind(n.kind) && n.parent.Some? ==> !t[n.parent.value].kind.SourceFile?)
    && (n.name.Some? ==> n.name.value in t)
    && (n.kind.ImportSpecifier? && n.kind.propertyName.Some? ==> n.kind.propertyName.value in t)
    && n.start <= n.end <= |n.file.text|
  }

  /** Every parent exists, precedes its child and lies in the same file; only source
      files have no parent, and no expression sits directly under one; spans lie inside
      their file's text. */
  predicate WellFormed(t: Tree) {
    forall id | id in t :: NodeOk(t, id)
  }

  predicate IsIdentifier(t: Tree, id: NodeId) {
    id in t && t[id].kind.Identifier?
  }

  /** `ts.isIdentifier(node.name)`: the text of a node's name when it is an identifier. */
  function IdentifierName(t: Tree, id: NodeId): Option<string>
    requires id in t
  {
    var n := t[id];
    if n.name.Some? && n.name.value in t && t[n.name.value].kind.Identifier?
    then Some(t[n.name.value].kind.text)
    else None
  }

  /** `node.getText()`: the node's text in its file. */
  function GetText(t: Tree, id: NodeId): string
    requires WellFormed(t) && id in t
  {
    assert NodeOk(t, id);
    t[id].file.text[t[id].start..t[id].end]
  }

  /** The parent of a node that is not a source file. */
  function ParentOf(t: Tree, id: NodeId): (p: NodeId)
    requires WellFormed(t) && id in t && !t[id].kind.SourceFile?
    ensures p in t && p < id
  {
    assert NodeOk(t, id);
    t[id].parent.value
  }

  /** `a` is `b` or one of its ancestors. */
  ghost predicate AncestorOrSelf(t: Tree, a: NodeId, b: NodeId)
    requires WellFormed(t) && b in t
    decreases b
  {
    a == b || (!t[b].kind.SourceFile? && AncestorOrSelf(t, a, ParentOf(t, b)))
  }

  predicate IdsAscendAt(ids: seq<NodeId>, i: nat, j: nat)
    requires i < j < |ids|
  {
    ids[i] < ids[j]
  }

  /** `nodes` are the nodes a recursive `ts.forEachChild` walk from `sf` reaches: every
      node strictly below `sf`, each once, in pre-order, that is in ascending id order. */
  ghost predicate DescendantWalk(t: Tree, sf: NodeId, nodes: seq<NodeId>)
    requires WellFormed(t) && sf in t
  {
    && (forall i, j :: 0 <= i < j < |nodes| ==> IdsAscendAt(nodes, i, j))
    && (forall n {:trigger AncestorOrSelf(t, sf, n)} :: n in nodes ==> n in t && n != sf && AncestorOrSelf(t, sf, n))
    && (forall n {:trigger AncestorOrSelf(t, sf, n)} :: n in t && n != sf && AncestorOrSelf(t, sf, n) ==> n in nodes)
  }

}
