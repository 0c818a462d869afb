/** The slice of Angular's template AST the reference visitors walk: template nodes
    (`TmplAstNode`) and the expressions (`AST`) bound in them. */
module TemplateAst {

  type TmplNodeId = nat

  /** Identity of an expression node, as the template type checker sees it. */
  type ExprId = nat

  /** Expressions: `PropertyRead` and `PropertyWrite` keep their receiver (and the
      written value); `spanEnd` is `sourceSpan.end`. Every other expression is kept
      only as the list of sub-expressions `RecursiveAstVisitor` visits, in order. */
  datatype Expr =
    | ImplicitReceiver
    | PropertyRead(id: ExprId, receiver: Expr, name: string, spanEnd: nat)
    | PropertyWrite(id: ExprId, receiver: Expr, name: string, value: Expr, spanEnd: nat)
    | OtherExpr(children: seq<Expr>)

  /** Template nodes; `url` is `sourceSpan.start.file.url`. `Container` stands for
      elements, `ng-template`s and blocks, with the nodes `TmplAstRecursiveVisitor`
      visits under them (attributes, inputs, outputs, children, ...) in visiting order. */
  datatype TmplNode =
    | BoundText(id: TmplNodeId, url: string, value: Expr)
    | BoundEvent(id: TmplNodeId, url: string, handler: Expr)
    | BoundAttribute(id: TmplNodeId, url: string, value: Expr)
    | Container(id: TmplNodeId, url: string, children: seq<TmplNode>)
    | Leaf(id: TmplNodeId, url: string)
}
