/** `extractDecoratorInput` (input_decorator.ts): reads the `@Input` metadata of a
    property declaration, from its decorator in a source file or from the directive
    metadata of a declaration file. */
module InputDecorators {
  import opened Wrappers
  import opened Ast

  /** The two messages with which the transform parse fails. */
  const NotInClassError := "input cannot be part a child of an interface"
  const UnnamedClassError := "containing input class to have a name"

  /** `DecoratorIdentifier`: a plain identifier (`Input`) or a namespaced access (`core.Input`). */
  datatype DecoratorIdentifier = PlainIdentifier(node: NodeId) | NamespacedIdentifier(namespace: NodeId, node: NodeId)

  /** A decorator as the reflection host reports it; `args` are argument expression ids. */
  datatype Decorator = Decorator(name: string, identifier: DecoratorIdentifier, args: Option<seq<nat>>)

  /** A value produced by the partial evaluator. */
  datatype Value =
    | StringValue(s: string)
    | BoolValue(b: bool)
    | MapValue(entries: map<string, Value>)
    | DynamicValue
    | ReferenceValue(target: NodeId)
    | Nullish
    | OtherValue

  /** `DecoratorInputTransform`: the transform function's node, its parameter type, and
      whether that node is an expression. The parser returns the node a reference resolves
      to, so a transform named by a `function` declaration has a statement as its node. */
  datatype Transform = Transform(node: nat, typeNode: nat, isExpression: bool)

  /** What `parseDecoratorInputTransformFunction` does: return a transform, throw a
      `FatalDiagnosticError`, or throw anything else. */
  datatype TransformOutcome = Parsed(transform: Transform) | FatalDiagnostic | OtherError(message: string)

  /** `InputMapping` */
  datatype InputMapping = InputMapping(bindingPropertyName: string, classPropertyName: string,
                                       required: bool, isSignal: bool, transform: Option<Transform>)

  /** `ExtractedInput`: an input mapping plus where it came from. */
  datatype ExtractedInput = ExtractedInput(bindingPropertyName: string, classPropertyName: string,
                                           required: bool, isSignal: bool, transform: Option<Transform>,
                                           inSourceFile: bool, inputDecoratorRef: Option<DecoratorIdentifier>)

  /** The compiler services the extraction asks: the reflection host's decorators, the
      partial evaluator, the transform parser, and the declaration-file metadata reader's
      input mapping for a class and a property name. */
  datatype Services = Services(
    decoratorsOf: NodeId -> Option<seq<Decorator>>,
    evaluate: nat -> Value,
    parseTransform: Value -> TransformOutcome,
    dtsInputMapping: (NodeId, string) -> Option<InputMapping>)

  /** `getAngularDecorators(decorators, ['Input'], true)[0]`: the first decorator named `Input`. */
  function FirstInputDecorator(ds: seq<Decorator>): (r: Option<Decorator>)
    ensures r.Some? ==> r.value in ds && r.value.name == "Input"
    ensures r.Some? ==> exists i :: 0 <= i < |ds| && ds[i] == r.value && forall j :: 0 <= j < i ==> ds[j].name != "Input"
    ensures r.None? <==> forall d :: d in ds ==> d.name != "Input"
  {
    if ds == [] then None
    else if ds[0].name == "Input" then Some(ds[0])
    else
      var rest := FirstInputDecorator(ds[1..]);
      assert forall d :: d in ds[1..] ==> d in ds;
      assert rest.Some? ==> (exists i :: 0 <= i < |ds[1..]| && ds[1..][i] == rest.value
                                        && forall j :: 0 <= j < i ==> ds[1..][j].name != "Input");
      assert forall d :: d in ds ==> d == ds[0] || d in ds[1..];
      rest
  }

  /** The property's name text when the node is a property declaration named by an identifier. */
  function PropertyName(t: Tree, node: NodeId): Option<string>
    requires node in t
  {
    if t[node].kind.PropertyDeclaration? then IdentifierName(t, node) else None
  }

  /** The parent class of a property, when it is a class declaration named by an identifier. */
  function NamedParentClass(t: Tree, node: NodeId): Option<NodeId>
    requires WellFormed(t) && node in t
  {
    if t[node].kind.SourceFile? then None
    else
      var p := ParentOf(t, node);
      if t[p].kind.ClassDeclaration? && IdentifierName(t, p).Some? then Some(p) else None
  }

  /** The value of the decorator's argument, when it has exactly one. */
  function SingleArgument(svc: Services, d: Decorator): Option<Value> {
    if d.args.Some? && |d.args.value| == 1 then Some(svc.evaluate(d.args.value[0])) else None
  }

  /** The public name: a string argument, or a string `alias` of an options map, else the field name. */
  function BindingName(arg: Option<Value>, fieldName: string): string {
    match arg
    case Some(StringValue(s)) => s
    case Some(MapValue(m)) => if "alias" in m && m["alias"].StringValue? then m["alias"].s else fieldName
    case _ => fieldName
  }

  /** Required only when an options map carries a boolean `required`. */
  function RequiredFlag(arg: Option<Value>): bool {
    match arg
    case Some(MapValue(m)) => "required" in m && m["required"].BoolValue? && m["required"].b
    case _ => false
  }

  /** The `transform` of an options map when it is a dynamic value or a reference, the
      only values handed to the transform parser. */
  function TransformCandidate(arg: Option<Value>): Option<Value> {
    match arg
    case Some(MapValue(m)) =>
      if "transform" in m && (m["transform"].DynamicValue? || m["transform"].ReferenceValue?)
      then Some(m["transform"]) else None
    case _ => None
  }

  /** The conditions under which source-code extraction yields an input (or fails). */
  predicate SourceCandidate(t: Tree, node: NodeId, svc: Services)
    requires node in t
  {
    && PropertyName(t, node).Some?
    && !t[node].file.isDeclarationFile
    && svc.decoratorsOf(node).Some?
    && FirstInputDecorator(svc.decoratorsOf(node).value).Some?
  }

  /** `extractSourceCodeInput`. Non-candidates give `null`. A candidate's record takes its
      names, `required` flag and decorator identifier from the first `Input` decorator's
      single argument; a transform candidate is parsed, where a fatal diagnostic leaves the
      transform null and any other error, or a parent that is not a named class, is thrown. */
  function SourceCodeInput(t: Tree, node: NodeId, svc: Services): (r: Result<Option<ExtractedInput>>)
    requires WellFormed(t) && node in t
    ensures !SourceCandidate(t, node, svc) ==> r == Ok(None)
    ensures SourceCandidate(t, node, svc) && r.Ok? ==> r.value.Some?
    ensures r.Ok? && r.value.Some? ==>
              var e := r.value.value;
              var d := FirstInputDecorator(svc.decoratorsOf(node).value).value;
              var arg := SingleArgument(svc, d);
              && SourceCandidate(t, node, svc)
              && e.classPropertyName == PropertyName(t, node).value
              && e.bindingPropertyName == BindingName(arg, e.classPropertyName)
              && e.required == RequiredFlag(arg)
              && !e.isSignal && e.inSourceFile
              && e.inputDecoratorRef == Some(d.identifier)
              && (e.transform.Some? <==>
                    TransformCandidate(arg).Some? && svc.parseTransform(TransformCandidate(arg).value).Parsed?)
              && (e.transform.Some? ==> e.transform.value == svc.parseTransform(TransformCandidate(arg).value).transform)
    ensures r.Err? ==>
              var d := FirstInputDecorator(svc.decoratorsOf(node).value).value;
              var arg := SingleArgument(svc, d);
              && SourceCandidate(t, node, svc)
              && TransformCandidate(arg).Some?
              && (NamedParentClass(t, node).None? || svc.parseTransform(TransformCandidate(arg).value).OtherError?)
  {
    if !SourceCandidate(t, node, svc) then Ok(None)
    else
      var fieldName := PropertyName(t, node).value;
      var d := FirstInputDecorator(svc.decoratorsOf(node).value).value;
      var arg := SingleArgument(svc, d);
      var transform :- TransformResult(t, node, svc, TransformCandidate(arg));
      Ok(Some(ExtractedInput(BindingName(arg, fieldName), fieldName, RequiredFlag(arg), false, transform, true,
                             Some(d.identifier))))
  }

  /** The transform a candidate value parses to: none without a candidate; a thrown
      assertion when the property's parent is not a named class; none after a fatal
      diagnostic; a thrown error for any other failure. */
  function TransformResult(t: Tree, node: NodeId, svc: Services, candidate: Option<Value>): (r: Result<Option<Transform>>)
    requires WellFormed(t) && node in t
    ensures candidate.None? ==> r == Ok(None)
    ensures r.Err? <==> candidate.Some? && (NamedParentClass(t, node).None? || svc.parseTransform(candidate.value).OtherError?)
    ensures r.Ok? && r.value.Some? <==> candidate.Some? && NamedParentClass(t, node).Some? && svc.parseTransform(candidate.value).Parsed?
  {
    match candidate
    case None => Ok(None)
    case Some(v) =>
      if t[node].kind.SourceFile? || !t[ParentOf(t, node)].kind.ClassDeclaration? then
        Err(NotInClassError)
      else if IdentifierName(t, ParentOf(t, node)).None? then Err(UnnamedClassError)
      else
        match svc.parseTransform(v)
        case Parsed(x) => Ok(Some(x))
        case FatalDiagnostic => Ok(None)
        case OtherError(m) => Err(m)
  }

  /** `extractSourceCodeInput`, step by step on local variables as the source does. */
  method ExtractSourceCodeInput(t: Tree, node: NodeId, svc: Services) returns (r: Result<Option<ExtractedInput>>)
    requires WellFormed(t) && node in t
    ensures r == SourceCodeInput(t, node, svc)
  {
    if PropertyName(t, node).None? || t[node].file.isDeclarationFile {
      return Ok(None);
    }
    var fieldName := PropertyName(t, node).value;
    var decorators := svc.decoratorsOf(node);
    if decorators.None? {
      return Ok(None);
    }
    var ngDecorator := FirstInputDecorator(decorators.value);
    if ngDecorator.None? {
      return Ok(None);
    }
    var inputDecorator := ngDecorator.value;

    var publicName := fieldName;
    var isRequired := false;
    var transformResult: Option<Transform> := None;

    if inputDecorator.args.Some? && |inputDecorator.args.value| == 1 {
      var evaluatedInputOpts := svc.evaluate(inputDecorator.args.value[0]);
      if evaluatedInputOpts.StringValue? {
        publicName := evaluatedInputOpts.s;
      } else if evaluatedInputOpts.MapValue? {
        var opts := evaluatedInputOpts.entries;
        if "alias" in opts && opts["alias"].StringValue? {
          publicName := opts["alias"].s;
        }
        if "required" in opts && opts["required"].BoolValue? {
          isRequired := opts["required"].b;
        }
        if "transform" in opts && !opts["transform"].Nullish? {
          var transformValue := opts["transform"];
          if transformValue.DynamicValue? || transformValue.ReferenceValue? {
            var p := ParentOf(t, node);
            if !t[p].kind.ClassDeclaration? {
              return Err(NotInClassError);
            }
            if IdentifierName(t, p).None? {
              return Err(UnnamedClassError);
            }
            var outcome := svc.parseTransform(transformValue);
            match outcome {
              case Parsed(x) => transformResult := Some(x);
              case FatalDiagnostic =>
              case OtherError(m) => return Err(m);
            }
          }
        }
      }
    }

    return Ok(Some(ExtractedInput(publicName, fieldName, isRequired, false, transformResult, true,
                                  Some(inputDecorator.identifier))));
  }

  /** `extractDtsInput`: only properties named by an identifier in a declaration file,
      inside a named class for which the metadata reader knows an input of that name;
      the mapping is copied, marked as not from source and without decorator. */
  function ExtractDtsInput(t: Tree, node: NodeId, svc: Services): (r: Option<ExtractedInput>)
    requires WellFormed(t) && node in t
    ensures r.Some? <==>
              && PropertyName(t, node).Some?
              && t[node].file.isDeclarationFile
              && NamedParentClass(t, node).Some?
              && svc.dtsInputMapping(NamedParentClass(t, node).value, PropertyName(t, node).value).Some?
    ensures r.Some? ==>
              var m := svc.dtsInputMapping(NamedParentClass(t, node).value, PropertyName(t, node).value).value;
              r.value == ExtractedInput(m.bindingPropertyName, m.classPropertyName, m.required, m.isSignal,
                                        m.transform, false, None)
  {
    if PropertyName(t, node).None? || !t[node].file.isDeclarationFile then None
    else if NamedParentClass(t, node).None? then None
    else
      match svc.dtsInputMapping(NamedParentClass(t, node).value, PropertyName(t, node).value)
      case None => None
      case Some(m) => Some(ExtractedInput(m.bindingPropertyName, m.classPropertyName, m.required, m.isSignal,
                                          m.transform, false, None))
  }

  /** `extractDecoratorInput`: source-code extraction first; the declaration-file reader
      only when that yields null. */
  function ExtractDecoratorInput(t: Tree, node: NodeId, svc: Services): (r: Result<Option<ExtractedInput>>)
    requires WellFormed(t) && node in t
    ensures !SourceCandidate(t, node, svc) ==> r == Ok(ExtractDtsInput(t, node, svc))
    ensures SourceCandidate(t, node, svc) ==> r == SourceCodeInput(t, node, svc)
    ensures r.Ok? && r.value.Some? ==> PropertyName(t, node).Some? && t[node].kind.PropertyDeclaration?
    ensures r.Ok? && r.value.Some? ==> (r.value.value.inSourceFile <==> !t[node].file.isDeclarationFile)
    ensures r.Err? ==> SourceCandidate(t, node, svc)
  {
    match SourceCodeInput(t, node, svc)
    case Err(m) => Err(m)
    case Ok(Some(e)) => Ok(Some(e))
    case Ok(None) => Ok(ExtractDtsInput(t, node, svc))
  }

  /** Without exactly one decorator argument the defaults stay: the field's own name,
      not required, no transform. */
  lemma DefaultsWithoutSingleArgument(svc: Services, d: Decorator, fieldName: string)
    requires d.args.None? || |d.args.value| != 1
    ensures BindingName(SingleArgument(svc, d), fieldName) == fieldName
    ensures !RequiredFlag(SingleArgument(svc, d))
    ensures TransformCandidate(SingleArgument(svc, d)).None?
  {
  }

  /** Source-code extraction and declaration-file extraction never both apply. */
  lemma SourceAndDtsExclusive(t: Tree, node: NodeId, svc: Services)
    requires WellFormed(t) && node in t
    ensures !(SourceCandidate(t, node, svc) && ExtractDtsInput(t, node, svc).Some?)
  {
  }
}
