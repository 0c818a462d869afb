/** The JIT transform that marks signal inputs for the runtime
    (compiler-cli/src/transformers/jit_transforms/input_signals_metadata_transform.ts): in
    each class decorated `@Directive` or `@Component`, every property whose initializer is
    a signal input gets an `@Input({ɵisSignal: true, ...})` decorator. */
module InputSignalsMetadataTransform {
  import opened Wrappers
  import opened NgccMigrationHost

  const DecoratorsWithInputs: seq<string> := ["Directive", "Component"]

  /** What `tryParseSignalInputMapping` (ngtsc/annotations, not part of this model) finds
      for a signal input: its binding name and whether it is required. */
  datatype InputMapping = InputMapping(bindingPropertyName: string, required: bool)

  /** The values the transform writes into the `@Input` metadata literal. */
  datatype FieldValue = TrueLiteral | FalseLiteral | StringLiteral(text: string) | UndefinedIdentifier

  /** A modifier of a property: a keyword, a decorator already in the source, or the
      generated `@<namespace>.Input({...})`, where `namespace` is the module the import
      manager's namespace import stands for. */
  datatype ModifierLike =
    | Keyword(text: string)
    | SourceDecorator(decorator: Decorator)
    | InputDecorator(namespace: string, fields: seq<(string, FieldValue)>)

  /** A class member: a property declaration with the parts the transform keeps, or any
      other member with the nodes under it. The nodes under a property declaration are not
      modelled. */
  datatype Member =
    | PropertyDeclaration(modifiers: seq<ModifierLike>, name: PropertyName, questionToken: bool,
                          typeNode: Option<ExprId>, initializer: Option<ExprId>)
    | OtherElement(id: nat, children: seq<Node>)

  /** A node of the source file: a class declaration (its other parts are kept as they are
      and stand behind its `id`), or any other node with its children. */
  datatype Node =
    | ClassDeclaration(id: ClassId, name: Option<string>, members: seq<Member>)
    | OtherNode(id: nat, children: seq<Node>)

  /** The reflection host's decorators of each class, the signal-input parser, and whether
      `@angular/core` itself is compiled. */
  datatype Env = Env(
    decoratorsOf: ClassId -> Option<seq<Decorator>>,
    signalInputMapping: (string, Option<ExprId>, Option<string>) -> Option<InputMapping>,
    isCore: bool)

  /** `needsClassTransform` */
  predicate NeedsClassTransform(env: Env, c: ClassId) {
    && env.decoratorsOf(c).Some?
    && exists i, j :: 0 <= i < |env.decoratorsOf(c).value| && 0 <= j < |DecoratorsWithInputs|
                      && IsAngularDecorator(env.decoratorsOf(c).value[i], DecoratorsWithInputs[j], env.isCore)
  }

  /** The mapping of a property with an identifier or string-literal name. */
  function InputMappingOf(env: Env, m: Member): Option<InputMapping> {
    match m
    case OtherElement(_, _) => None
    case PropertyDeclaration(_, name, _, _, initializer) =>
      if name.OtherName? then None
      else env.signalInputMapping(name.text, initializer, if env.isCore then Some(AngularCore) else None)
  }

  /** The metadata object literal, in the order the source writes its fields. */
  function InputFields(mapping: InputMapping): (r: seq<(string, FieldValue)>)
    ensures |r| == 4 && r[0] == ("ɵisSignal", TrueLiteral) && r[3] == ("transform", UndefinedIdentifier)
    ensures r[1] == ("alias", StringLiteral(mapping.bindingPropertyName))
    ensures r[2].0 == "required" && (r[2].1 == TrueLiteral <==> mapping.required)
    ensures r[2].1 in {TrueLiteral, FalseLiteral}
  {
    [("ɵisSignal", TrueLiteral),
     ("alias", StringLiteral(mapping.bindingPropertyName)),
     ("required", if mapping.required then TrueLiteral else FalseLiteral),
     ("transform", UndefinedIdentifier)]
  }

  /** The member callback of `visitClassDeclaration`. */
  function TransformMember(env: Env, m: Member): (r: Member)
    ensures InputMappingOf(env, m).None? ==> r == m
    ensures InputMappingOf(env, m).Some? ==>
              && m.PropertyDeclaration? && r.PropertyDeclaration?
              && r.name == m.name && r.questionToken == m.questionToken
              && r.typeNode == m.typeNode && r.initializer == m.initializer
              && r.modifiers == [InputDecorator(AngularCore, InputFields(InputMappingOf(env, m).value))]
  {
    match InputMappingOf(env, m)
    case None => m
    case Some(mapping) => m.(modifiers := [InputDecorator(AngularCore, InputFields(mapping))])
  }

  /** The visitor: a named class that needs the transform has its members rewritten and
      nothing under them visited; every other node has its children visited. */
  function Visit(env: Env, node: Node): Node
    decreases node
  {
    match node
    case ClassDeclaration(id, name, members) =>
      if name.Some? && NeedsClassTransform(env, id) then
        ClassDeclaration(id, name, seq(|members|, i requires 0 <= i < |members| => TransformMember(env, members[i])))
      else
        ClassDeclaration(id, name, seq(|members|, i requires 0 <= i < |members| =>
          match members[i]
          case OtherElement(mid, children) =>
            OtherElement(mid, seq(|children|, j requires 0 <= j < |children| => Visit(env, children[j])))
          case PropertyDeclaration(_, _, _, _, _) => members[i]))
    case OtherNode(id, children) =>
      OtherNode(id, seq(|children|, i requires 0 <= i < |children| => Visit(env, children[i])))
  }

  /** Whether the visit rewrites some member, and so asks for the `@angular/core` import. */
  predicate Rewrites(env: Env, node: Node)
    decreases node
  {
    match node
    case ClassDeclaration(id, name, members) =>
      if name.Some? && NeedsClassTransform(env, id) then
        exists i :: 0 <= i < |members| && InputMappingOf(env, members[i]).Some?
      else
        exists i, j :: 0 <= i < |members| && members[i].OtherElement? && 0 <= j < |members[i].children|
                       && Rewrites(env, members[i].children[j])
    case OtherNode(_, children) =>
      exists i :: 0 <= i < |children| && Rewrites(env, children[i])
  }

  /** A file in which no member is rewritten comes out as it went in. */
  lemma {:induction false} UnchangedWithoutRewrites(env: Env, node: Node)
    requires !Rewrites(env, node)
    ensures Visit(env, node) == node
    decreases node
  {
    match node
    case ClassDeclaration(id, name, members) =>
      if name.Some? && NeedsClassTransform(env, id) {
        assert Visit(env, node).members == members;
      } else {
        var visited := Visit(env, node).members;
        forall i | 0 <= i < |members|
          ensures visited[i] == members[i]
        {
          if members[i].OtherElement? {
            var children := members[i].children;
            forall j | 0 <= j < |children|
              ensures Visit(env, children[j]) == children[j]
            {
              UnchangedWithoutRewrites(env, children[j]);
            }
            assert visited[i].children == children;
          }
        }
        assert visited == members;
      }
    case OtherNode(id, children) =>
      forall i | 0 <= i < |children|
        ensures Visit(env, children[i]) == children[i]
      {
        UnchangedWithoutRewrites(env, children[i]);
      }
      assert Visit(env, node).children == children;
  }

  /** In a class without a `@Directive` or `@Component` decorator, or without a name, no
      property changes. */
  lemma PropertiesKeptOutsideDirectives(env: Env, node: Node, i: nat)
    requires node.ClassDeclaration? && (node.name.None? || !NeedsClassTransform(env, node.id))
    requires i < |node.members| && node.members[i].PropertyDeclaration?
    ensures Visit(env, node).members[i] == node.members[i]
  {
  }

  /** In a named directive or component, a property with a signal-input mapping keeps its
      name, `?` token, type and initializer, and its modifiers become the single generated
      `@Input` decorator carrying `ɵisSignal: true`, the binding name as `alias`, the
      `required` flag and `transform: undefined`; every other member is kept. */
  lemma SignalInputsDecorated(env: Env, node: Node, i: nat)
    requires node.ClassDeclaration? && node.name.Some? && NeedsClassTransform(env, node.id)
    requires i < |node.members|
    ensures var m := node.members[i];
            var r := Visit(env, node).members[i];
            match InputMappingOf(env, m)
            case None => r == m
            case Some(mapping) =>
              && r.PropertyDeclaration? && r.name == m.name && r.questionToken == m.questionToken
              && r.typeNode == m.typeNode && r.initializer == m.initializer
              && |r.modifiers| == 1 && r.modifiers[0].InputDecorator? && r.modifiers[0].namespace == AngularCore
              && r.modifiers[0].fields[0] == ("ɵisSignal", TrueLiteral)
              && r.modifiers[0].fields[1] == ("alias", StringLiteral(mapping.bindingPropertyName))
              && (r.modifiers[0].fields[2] == ("required", TrueLiteral) <==> mapping.required)
              && r.modifiers[0].fields[3] == ("transform", UndefinedIdentifier)
  {
  }

  // ---------------------------------------------------------------- the visit, with the import manager

  /** The namespace imports requested, as the modules they import, each once. */
  function WithImport(imports: seq<string>, moduleName: string): (r: seq<string>)
    ensures moduleName in r && forall m :: m in r <==> m in imports || m == moduleName
  {
    if moduleName in imports then imports else imports + [moduleName]
  }

  function Requested(imports: seq<string>, rewrites: bool): seq<string> {
    if rewrites then WithImport(imports, AngularCore) else imports
  }

  /** The part of the `ImportManager` the transform uses. */
  class ImportManager {
    var namespaceImports: seq<string>

    constructor()
      ensures namespaceImports == []
    {
      namespaceImports := [];
    }

    /** `generateNamespaceImport(module)`: the namespace import of `module`, requested once. */
    method GenerateNamespaceImport(moduleName: string) returns (namespace: string)
      modifies this
      ensures namespace == moduleName && namespaceImports == WithImport(old(namespaceImports), moduleName)
    {
      namespaceImports := WithImport(namespaceImports, moduleName);
      namespace := moduleName;
    }
  }

  /** `visitClassDeclaration` */
  method VisitClassDeclaration(env: Env, node: Node, importManager: ImportManager) returns (r: Node)
    requires node.ClassDeclaration? && node.name.Some? && NeedsClassTransform(env, node.id)
    modifies importManager
    ensures r == Visit(env, node)
    ensures importManager.namespaceImports == Requested(old(importManager.namespaceImports), Rewrites(env, node))
  {
    var members := node.members;
    var rewritten: seq<Member> := [];
    for i := 0 to |members|
      invariant rewritten == seq(i, k requires 0 <= k < i => TransformMember(env, members[k]))
      invariant importManager.namespaceImports
                == Requested(old(importManager.namespaceImports), exists k :: 0 <= k < i && InputMappingOf(env, members[k]).Some?)
    {
      var member := members[i];
      var mapping := InputMappingOf(env, member);
      if mapping.None? {
        rewritten := rewritten + [member];
      } else {
        var namespace := importManager.GenerateNamespaceImport(AngularCore);
        rewritten := rewritten + [member.(modifiers := [InputDecorator(namespace, InputFields(mapping.value))])];
      }
    }
    r := ClassDeclaration(node.id, node.name, rewritten);
  }

  /** The visitor on a node, recording in `importManager` the imports the rewritten members need. */
  method VisitNode(env: Env, node: Node, importManager: ImportManager) returns (r: Node)
    modifies importManager
    ensures r == Visit(env, node)
    ensures importManager.namespaceImports == Requested(old(importManager.namespaceImports), Rewrites(env, node))
    decreases node, 2
  {
    match node
    case ClassDeclaration(id, name, members) =>
      if name.Some? && NeedsClassTransform(env, id) {
        r := VisitClassDeclaration(env, node, importManager);
      } else {
        var visited := VisitMembers(env, node, importManager);
        r := ClassDeclaration(id, name, visited);
      }
    case OtherNode(id, children) =>
      var children' := VisitNodes(env, node, children, importManager);
      r := OtherNode(id, children');
  }

  /** Requesting the import twice is requesting it once. */
  lemma RequestedTwice(imports: seq<string>, p: bool, q: bool)
    ensures Requested(Requested(imports, p), q) == Requested(imports, p || q)
  {
  }

  /** Some member among the first `i` of an untransformed class has a node under it that
      is rewritten. */
  ghost predicate RewritesAmong(env: Env, members: seq<Member>, i: nat)
    requires i <= |members|
  {
    exists k, j :: 0 <= k < i && members[k].OtherElement? && 0 <= j < |members[k].children|
                   && Rewrites(env, members[k].children[j])
  }

  lemma RewritesAmongStep(env: Env, members: seq<Member>, i: nat)
    requires i < |members|
    ensures RewritesAmong(env, members, i + 1)
            == (RewritesAmong(env, members, i)
                || (members[i].OtherElement?
                    && exists j :: 0 <= j < |members[i].children| && Rewrites(env, members[i].children[j])))
  {
  }

  /** `ts.visitEachChild` on a class that is not transformed: properties are kept and the
      nodes under its other members are visited. */
  method VisitMembers(env: Env, node: Node, importManager: ImportManager) returns (visited: seq<Member>)
    requires node.ClassDeclaration? && !(node.name.Some? && NeedsClassTransform(env, node.id))
    modifies importManager
    ensures visited == Visit(env, node).members
    ensures importManager.namespaceImports == Requested(old(importManager.namespaceImports), Rewrites(env, node))
    decreases node, 1
  {
    var members := node.members;
    visited := [];
    for i := 0 to |members|
      invariant visited == Visit(env, node).members[..i]
      invariant importManager.namespaceImports == Requested(old(importManager.namespaceImports), RewritesAmong(env, members, i))
    {
      ghost var before := importManager.namespaceImports;
      RewritesAmongStep(env, members, i);
      if members[i].OtherElement? {
        var children' := VisitNodes(env, node, members[i].children, importManager);
        RequestedTwice(old(importManager.namespaceImports), RewritesAmong(env, members, i),
                       exists j :: 0 <= j < |members[i].children| && Rewrites(env, members[i].children[j]));
        visited := visited + [OtherElement(members[i].id, children')];
      } else {
        visited := visited + [members[i]];
      }
    }
  }

  /** `ts.visitEachChild` over the nodes under `parent`. */
  method VisitNodes(env: Env, ghost parent: Node, nodes: seq<Node>, importManager: ImportManager) returns (r: seq<Node>)
    requires forall k :: 0 <= k < |nodes| ==> nodes[k] < parent
    modifies importManager
    ensures r == seq(|nodes|, k requires 0 <= k < |nodes| => Visit(env, nodes[k]))
    ensures importManager.namespaceImports
            == Requested(old(importManager.namespaceImports), exists k :: 0 <= k < |nodes| && Rewrites(env, nodes[k]))
    decreases parent, 0
  {
    r := [];
    for i := 0 to |nodes|
      invariant r == seq(i, k requires 0 <= k < i => Visit(env, nodes[k]))
      invariant importManager.namespaceImports
                == Requested(old(importManager.namespaceImports), exists k :: 0 <= k < i && Rewrites(env, nodes[k]))
    {
      var visited := VisitNode(env, nodes[i], importManager);
      r := r + [visited];
    }
  }

  /** A transformed source file: its nodes, and the imports `addImports` prepends. */
  datatype TransformedFile = TransformedFile(root: Node, addedImports: seq<string>)

  /** The per-file transformer: a fresh import manager, the visit, and the imports added
      only when the import manager collected some. */
  method TransformSourceFile(env: Env, sourceFile: Node) returns (r: TransformedFile)
    ensures r.root == Visit(env, sourceFile)
    ensures r.addedImports == (if Rewrites(env, sourceFile) then [AngularCore] else [])
  {
    var importManager := new ImportManager();
    var root := VisitNode(env, sourceFile, importManager);
    var newImports := importManager.namespaceImports;
    if |newImports| > 0 {
      r := TransformedFile(root, newImports);
    } else {
      r := TransformedFile(root, []);
    }
  }
}
