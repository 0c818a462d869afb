/** `InputReference` (utils/input_reference.ts): a reference to an input, either from
    a template or from TypeScript code. */
module InputReferences {
  import opened Wrappers
  import Ast
  import TemplateAst
  import opened InputIds

  datatype TemplateFrom = TemplateFrom(templateFileId: string, originatingTsFileId: string,
                                       node: TemplateAst.TmplNodeId)

  datatype TsFrom = TsFrom(fileId: string, node: Ast.NodeId)

  datatype InputReference =
    | TemplateInputReference(templateFrom: TemplateFrom, target: InputId)
    | TsInputReference(tsFrom: TsFrom, target: InputId, targetSymbol: Ast.Symbol)

  /** `(ref as Partial<TsInputReference>).targetSymbol`: absent on template references. */
  function TargetSymbolField(ref: InputReference): Option<Ast.Symbol> {
    match ref
    case TsInputReference(_, _, symbol) => Some(symbol)
    case TemplateInputReference(_, _) => None
  }

  /** `isTsInputReference`: true exactly for TypeScript references. */
  function IsTsInputReference(ref: InputReference): (b: bool)
    ensures b <==> ref.TsInputReference?
    ensures !b <==> ref.TemplateInputReference?
  {
    TargetSymbolField(ref).Some?
  }
}
