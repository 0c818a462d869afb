/** `convertToSignalInput` (convert_to_signal.ts): the shape of the `input(...)` call
    that replaces an `@Input()` field. The printed text is not modelled; the call is
    described by its callee, type arguments and value arguments. */
module SignalInputConversion {
  import opened Wrappers
  import opened Ast
  import opened InputDecorators

  /** The parts of the property declaration the conversion reads. */
  datatype PropertySyntax = PropertySyntax(
    name: NodeId,
    initializer: Option<nat>,
    typeNode: Option<nat>,
    hasQuestionToken: bool,
    hasExclamationToken: bool)

  /** `{alias: ..., transform: ...}`, each property present or not. */
  datatype OptionsLiteral = OptionsLiteral(alias: Option<string>, transform: Option<nat>)

  /** A value argument of the call: the field's initializer, the identifier `undefined`,
      or the options literal. */
  datatype CallArgument = Initializer(expr: nat) | UndefinedIdentifier | Options(options: OptionsLiteral)

  /** `input` or `ns.input` (when the decorator was written `ns.Input`), followed by
      `.required` when `required` holds. */
  datatype Callee = Callee(namespace: Option<NodeId>, required: bool)

  datatype SignalInputCall = SignalInputCall(callee: Callee, typeArgs: seq<nat>, args: seq<CallArgument>)

  /** The rewritten declaration: the same name and the call as initializer; no modifiers,
      no `?`/`!` token and no type annotation. */
  datatype SignalInputDeclaration = SignalInputDeclaration(name: NodeId, initializer: SignalInputCall)

  function OptionsOf(metadata: ExtractedInput): Option<OptionsLiteral> {
    if metadata.bindingPropertyName != metadata.classPropertyName || metadata.transform.Some? then
      Some(OptionsLiteral(
        if metadata.bindingPropertyName != metadata.classPropertyName then Some(metadata.bindingPropertyName) else None,
        if metadata.transform.Some? then Some(metadata.transform.value.node) else None))
    else None
  }

  /** The conversion asserts that a transform's node is an expression, as it is placed
      as the `transform` property of the options literal. */
  predicate TransformIsNotExpression(metadata: ExtractedInput) {
    metadata.transform.Some? && !metadata.transform.value.isExpression
  }

  const TransformNotExpressionMessage := "transform function is not an expression"

  function ConvertToSignalInput(decl: PropertySyntax, metadata: ExtractedInput): (r: Result<SignalInputDeclaration>)
    // the assertion on the transform's node
    ensures r.Err? <==> TransformIsNotExpression(metadata)
    ensures r.Err? ==> r.message == TransformNotExpressionMessage
    ensures r.Ok? ==> r.value.name == decl.name
    // options literal iff the names differ or there is a transform; `alias` and `transform` as needed
    ensures r.Ok? ==>
              ((exists i :: 0 <= i < |r.value.initializer.args| && r.value.initializer.args[i].Options?) <==>
                 (metadata.bindingPropertyName != metadata.classPropertyName || metadata.transform.Some?))
    ensures r.Ok? ==> forall a :: a in r.value.initializer.args && a.Options? ==>
              && (a.options.alias.Some? <==> metadata.bindingPropertyName != metadata.classPropertyName)
              && (a.options.alias.Some? ==> a.options.alias.value == metadata.bindingPropertyName)
              && (a.options.transform.Some? <==> metadata.transform.Some?)
              && (a.options.transform.Some? ==> a.options.transform.value == metadata.transform.value.node)
    // the options literal, when present, is the last argument
    ensures r.Ok? ==> forall i :: 0 <= i < |r.value.initializer.args| && r.value.initializer.args[i].Options? ==>
              i == |r.value.initializer.args| - 1
    // the declared type, then the transform's type; nothing without a declared type
    ensures r.Ok? && decl.typeNode.None? ==> r.value.initializer.typeArgs == []
    ensures r.Ok? && decl.typeNode.Some? ==>
              |r.value.initializer.typeArgs| >= 1 && r.value.initializer.typeArgs[0] == decl.typeNode.value
    ensures r.Ok? ==> (|r.value.initializer.typeArgs| == 2 <==> decl.typeNode.Some? && metadata.transform.Some?)
    ensures r.Ok? && |r.value.initializer.typeArgs| == 2 ==>
              r.value.initializer.typeArgs[1] == metadata.transform.value.typeNode
    // the initial value: only for optional inputs with an initializer or options
    ensures r.Ok? ==> ((|r.value.initializer.args| > 0 && !r.value.initializer.args[0].Options?) <==>
              !metadata.required && (decl.initializer.Some? || OptionsOf(metadata).Some?))
    ensures r.Ok? && |r.value.initializer.args| > 0 && !r.value.initializer.args[0].Options? ==>
              r.value.initializer.args[0] == (if decl.initializer.Some? then Initializer(decl.initializer.value) else UndefinedIdentifier)
    ensures r.Ok? ==> |r.value.initializer.args| <= 2
    // the callee
    ensures r.Ok? ==> r.value.initializer.callee.required == metadata.required
    ensures r.Ok? ==> (r.value.initializer.callee.namespace.Some? <==>
              (metadata.inputDecoratorRef.Some? && metadata.inputDecoratorRef.value.NamespacedIdentifier?))
    ensures r.Ok? && r.value.initializer.callee.namespace.Some? ==>
              r.value.initializer.callee.namespace.value == metadata.inputDecoratorRef.value.namespace
  {
    var optionsLiteral := OptionsOf(metadata);
    if optionsLiteral.Some? && TransformIsNotExpression(metadata) then Err(TransformNotExpressionMessage)
    else
      var typeArgs :=
        if decl.typeNode.None? then []
        else [decl.typeNode.value] + (if metadata.transform.Some? then [metadata.transform.value.typeNode] else []);
      var initialArgs :=
        if !metadata.required && (decl.initializer.Some? || optionsLiteral.Some?)
        then [if decl.initializer.Some? then Initializer(decl.initializer.value) else UndefinedIdentifier]
        else [];
      var inputArgs := initialArgs + (if optionsLiteral.Some? then [Options(optionsLiteral.value)] else []);
      var namespace :=
        if metadata.inputDecoratorRef.Some? && metadata.inputDecoratorRef.value.NamespacedIdentifier?
        then Some(metadata.inputDecoratorRef.value.namespace) else None;
      assert optionsLiteral.Some? ==> inputArgs[|inputArgs| - 1].Options?;
      Ok(SignalInputDeclaration(decl.name, SignalInputCall(Callee(namespace, metadata.required), typeArgs, inputArgs)))
  }

  /** A required input never gets an initial value, even when the field has an initializer. */
  lemma RequiredInputHasNoInitialValue(decl: PropertySyntax, metadata: ExtractedInput)
    requires metadata.required
    ensures ConvertToSignalInput(decl, metadata).Ok? ==>
              forall a :: a in ConvertToSignalInput(decl, metadata).value.initializer.args ==> a.Options?
  {
  }

  /** A plain optional input without initializer, alias or transform becomes `input()`. */
  lemma PlainInputHasNoArguments(decl: PropertySyntax, metadata: ExtractedInput)
    requires !metadata.required && decl.initializer.None?
    requires metadata.bindingPropertyName == metadata.classPropertyName && metadata.transform.None?
    ensures ConvertToSignalInput(decl, metadata).Ok? && ConvertToSignalInput(decl, metadata).value.initializer.args == []
  {
  }
}
