/** Pass 2 (passes/2_find_source_file_references.ts): visits every node of a source file;
    records template references of component classes and TypeScript references of
    identifiers that resolve to a known input, appends `()` after each, and marks an input
    incompatible when the first ancestor of its access that is not a parenthesis or `as`
    expression is an `=` binary expression. */
module SourceReferences {
  import opened Wrappers
  import opened Ast
  import opened Replacements
  import opened InputIds
  import opened InputReferences
  import opened MigrationHosts
  import opened MigrationResults
  import opened IdentifyInputs
  import opened TemplateAst
  import opened TemplateReferences
  import opened AccessTraversal
  import opened ParentUnwrapping

  /** The services pass 2 uses: the host, `path.relative`, `checker.getSymbolAtLocation`,
      `templateTypeChecker.getTemplate` and the template checkers of each component class. */
  datatype Pass2Env = Pass2Env(
    host: MigrationHost,
    relative: RelativePath,
    symbolAt: NodeId -> Option<Symbol>,
    templateOf: NodeId -> Option<seq<TmplNode>>,
    templateServices: NodeId -> TemplateServices)

  // ---------------------------------------------------------------- write detection

  /** The node pass 2 inspects for an assignment, as written: `unwrapParent` applied to the
      access's parent. It climbs from that parent through wrappers, so when the parent is a
      parenthesis or `as` expression it stops at the outermost wrapper, and when the parent
      is itself inside a wrapper it climbs past it. Either way an `=` it finds is the one
      the corrected walk finds too. */
  function AccessParentAsWritten(t: Tree, node: NodeId): (p: NodeId)
    requires WellFormed(t) && IsIdentifier(t, node)
    ensures p in t && !t[p].kind.SourceFile?
    ensures var q := ParentOf(t, TraverseAccess(t, node));
            && (IsWrapper(t[q].kind) ==> IsWrapper(t[p].kind) && ParentOf(t, p) == AccessParent(t, node))
            && (!IsWrapper(t[q].kind) ==> q == AccessParent(t, node) && WrapperPath(t, q, p))
    ensures IsAssignment(t, p) ==> p == AccessParent(t, node)
  {
    var a := TraverseAccess(t, node);
    assert NodeOk(t, a);
    var q := ParentOf(t, a);
    var p := UnwrapParent(t, q);
    if p != q then WrapperPathEndsAtWrapper(t, q, p); p else p
  }

  /** The node the corrected walk inspects: the parent of the access once the access has
      climbed through every parenthesis and `as` expression above it. */
  function AccessParent(t: Tree, node: NodeId): (p: NodeId)
    requires WellFormed(t) && IsIdentifier(t, node)
    ensures p in t && !IsWrapper(t[p].kind)
    ensures p == ParentOf(t, UnwrapParent(t, TraverseAccess(t, node)))
  {
    ParentOf(t, UnwrapParent(t, TraverseAccess(t, node)))
  }

  predicate IsAssignment(t: Tree, p: NodeId)
    requires p in t
  {
    t[p].kind == BinaryExpression(EqualsToken)
  }

  /** When the access climbs through wrappers only to `top`, whose parent is not a wrapper,
      the corrected walk inspects that parent. */
  lemma AccessParentIsFirstNonWrapper(t: Tree, node: NodeId, top: NodeId)
    requires WellFormed(t) && IsIdentifier(t, node)
    requires WrapperPath(t, TraverseAccess(t, node), top) && top in t && !t[top].kind.SourceFile?
    requires !IsWrapper(t[ParentOf(t, top)].kind)
    ensures AccessParent(t, node) == ParentOf(t, top)
  {
    UnwrapParentUnique(t, TraverseAccess(t, node), top);
  }

  /** `(this.myInput) = 1`: as written the inspected node is the parenthesis, so the
      assignment is missed; the corrected walk reaches the `=` expression. */
  lemma ParenthesizedAssignmentMissedAsWritten()
    ensures
      var f := FileInfo("a.ts", false, "(this.myInput) = 1;");
      var t := map[
        0 := Node(SourceFile, None, None, 0, 19, f, None),
        1 := Node(OtherKind(0), Some(0), None, 0, 19, f, None),
        2 := Node(BinaryExpression(EqualsToken), Some(1), None, 0, 18, f, None),
        3 := Node(ParenthesizedExpression, Some(2), None, 0, 14, f, None),
        4 := Node(PropertyAccessExpression, Some(3), Some(6), 1, 13, f, None),
        5 := Node(ThisKeyword, Some(4), None, 1, 5, f, None),
        6 := Node(Identifier("myInput"), Some(4), None, 6, 13, f, None)];
      && WellFormed(t) && IsIdentifier(t, 6)
      && !IsAssignment(t, AccessParentAsWritten(t, 6))
      && IsAssignment(t, AccessParent(t, 6))
  {
    var f := FileInfo("a.ts", false, "(this.myInput) = 1;");
    var t := map[
      0 := Node(SourceFile, None, None, 0, 19, f, None),
      1 := Node(OtherKind(0), Some(0), None, 0, 19, f, None),
      2 := Node(BinaryExpression(EqualsToken), Some(1), None, 0, 18, f, None),
      3 := Node(ParenthesizedExpression, Some(2), None, 0, 14, f, None),
      4 := Node(PropertyAccessExpression, Some(3), Some(6), 1, 13, f, None),
      5 := Node(ThisKeyword, Some(4), None, 1, 5, f, None),
      6 := Node(Identifier("myInput"), Some(4), None, 6, 13, f, None)];
    assert |f.text| == 19;
    assert forall id | id in t :: NodeOk(t, id);
    assert TraverseAccess(t, 6) == 4;
    assert ParentOf(t, 4) == 3;
    assert UnwrapParent(t, 3) == 3;
    assert UnwrapParent(t, 4) == 3;
    assert ParentOf(t, 3) == 2;
  }

  /** `x = (this.myInput = 1);`: as written the walk from the inner `=` climbs to the
      parenthesis around it, so the write is missed; the corrected walk stops at the inner `=`. */
  lemma AssignmentInParenthesesMissedAsWritten()
    ensures
      var f := FileInfo("a.ts", false, "x = (this.myInput = 1);");
      var t := map[
        0 := Node(SourceFile, None, None, 0, 23, f, None),
        1 := Node(OtherKind(0), Some(0), None, 0, 23, f, None),
        2 := Node(BinaryExpression(EqualsToken), Some(1), None, 0, 22, f, None),
        3 := Node(Identifier("x"), Some(2), None, 0, 1, f, None),
        4 := Node(ParenthesizedExpression, Some(2), None, 4, 22, f, None),
        5 := Node(BinaryExpression(EqualsToken), Some(4), None, 5, 21, f, None),
        6 := Node(PropertyAccessExpression, Some(5), Some(8), 5, 17, f, None),
        7 := Node(ThisKeyword, Some(6), None, 5, 9, f, None),
        8 := Node(Identifier("myInput"), Some(6), None, 10, 17, f, None)];
      && WellFormed(t) && IsIdentifier(t, 8)
      && !IsAssignment(t, AccessParentAsWritten(t, 8))
      && AccessParent(t, 8) == 5 && IsAssignment(t, 5)
  {
    var f := FileInfo("a.ts", false, "x = (this.myInput = 1);");
    var t := map[
      0 := Node(SourceFile, None, None, 0, 23, f, None),
      1 := Node(OtherKind(0), Some(0), None, 0, 23, f, None),
      2 := Node(BinaryExpression(EqualsToken), Some(1), None, 0, 22, f, None),
      3 := Node(Identifier("x"), Some(2), None, 0, 1, f, None),
      4 := Node(ParenthesizedExpression, Some(2), None, 4, 22, f, None),
      5 := Node(BinaryExpression(EqualsToken), Some(4), None, 5, 21, f, None),
      6 := Node(PropertyAccessExpression, Some(5), Some(8), 5, 17, f, None),
      7 := Node(ThisKeyword, Some(6), None, 5, 9, f, None),
      8 := Node(Identifier("myInput"), Some(6), None, 10, 17, f, None)];
    assert |f.text| == 23;
    assert forall id | id in t :: NodeOk(t, id);
    assert TraverseAccess(t, 8) == 6;
    assert ParentOf(t, 6) == 5;
    assert UnwrapParent(t, 4) == 4;
    assert UnwrapParent(t, 5) == 4;
    assert UnwrapParent(t, 6) == 6;
  }

  // ---------------------------------------------------------------- one node

  /** An identifier that is not the name of the property declaration it belongs to. */
  predicate IsReferenceCandidate(t: Tree, node: NodeId)
    requires WellFormed(t)
  {
    IsIdentifier(t, node)
    && var p := ParentOf(t, node);
    !(t[p].kind.PropertyDeclaration? && t[p].name == Some(node))
  }

  /** The symbol at an identifier and its first declaration that is a known input. */
  function TsTarget(node: NodeId, env: Pass2Env, known: map<NodeId, KnownInput>): Option<(Symbol, NodeId)> {
    match env.symbolAt(node)
    case None => None
    case Some(s) =>
      match FindKnownDeclaration(DeclarationsOf(Some(s)), known)
      case None => None
      case Some(d) => Some((s, d))
  }

  function TsReference(t: Tree, node: NodeId, env: Pass2Env, known: map<NodeId, KnownInput>, target: (Symbol, NodeId))
    : InputReference
    requires node in t && target.1 in known
  {
    TsInputReference(TsFrom(FileToId(env.host, SourceFileRef(t[node].file), env.relative), node),
                     known[target.1].inputId, target.0)
  }

  function CallInsertion(at: nat): Replacement {
    Replacement(at, at, "()")
  }

  /** The template records of a component class: none when it has no template. */
  function TemplateResults(cls: NodeId, env: Pass2Env, known: map<NodeId, KnownInput>): seq<TmplInputExpressionReference> {
    match env.templateOf(cls)
    case None => []
    case Some(template) => TemplateRefs(env.templateServices(cls), known, template)
  }

  function TemplateReference(t: Tree, cls: NodeId, env: Pass2Env, res: TmplInputExpressionReference): InputReference
    requires cls in t
  {
    TemplateInputReference(
      TemplateFrom(FileToId(env.host, PathRef(res.containingUrl), env.relative),
                   FileToId(env.host, SourceFileRef(t[cls].file), env.relative),
                   res.containingTmplNode),
      res.targetInputId)
  }

  function TemplateEdit(res: TmplInputExpressionReference): Edit {
    Edit(res.containingUrl, CallInsertion(res.readSpanEnd))
  }

  function TemplateReferencesOf(t: Tree, cls: NodeId, env: Pass2Env, results: seq<TmplInputExpressionReference>)
    : (refs: seq<InputReference>)
    requires cls in t
    ensures |refs| == |results|
    ensures forall i :: 0 <= i < |results| ==> refs[i] == TemplateReference(t, cls, env, results[i])
  {
    if results == [] then []
    else TemplateReferencesOf(t, cls, env, results[..|results| - 1]) + [TemplateReference(t, cls, env, results[|results| - 1])]
  }

  function TemplateEditsOf(results: seq<TmplInputExpressionReference>): (edits: seq<Edit>)
    ensures |edits| == |results|
    ensures forall i :: 0 <= i < |results| ==> edits[i] == TemplateEdit(results[i])
  {
    if results == [] then [] else TemplateEditsOf(results[..|results| - 1]) + [TemplateEdit(results[|results| - 1])]
  }

  /** The references `identifyTemplateReferences` records for a component class. */
  function ClassReferences(t: Tree, node: NodeId, env: Pass2Env, known: map<NodeId, KnownInput>): seq<InputReference>
    requires node in t
  {
    if t[node].kind.ClassDeclaration? then TemplateReferencesOf(t, node, env, TemplateResults(node, env, known)) else []
  }

  function ClassEdits(t: Tree, node: NodeId, env: Pass2Env, known: map<NodeId, KnownInput>): seq<Edit>
    requires node in t
  {
    if t[node].kind.ClassDeclaration? then TemplateEditsOf(TemplateResults(node, env, known)) else []
  }

  /** The reference `identifyPotentialTypeScriptReference` records for an identifier. */
  function IdentifierReferences(t: Tree, node: NodeId, env: Pass2Env, known: map<NodeId, KnownInput>): seq<InputReference>
    requires WellFormed(t) && node in t
  {
    if IsReferenceCandidate(t, node) && TsTarget(node, env, known).Some?
    then [TsReference(t, node, env, known, TsTarget(node, env, known).value)] else []
  }

  function IdentifierEdits(t: Tree, node: NodeId, env: Pass2Env, known: map<NodeId, KnownInput>): seq<Edit>
    requires WellFormed(t) && node in t
  {
    if IsReferenceCandidate(t, node) && TsTarget(node, env, known).Some?
    then [Edit(t[node].file.fileName, CallInsertion(t[node].end))] else []
  }

  /** The references pass 2 records for one node, in the order it records them. */
  function NodeReferences(t: Tree, node: NodeId, env: Pass2Env, known: map<NodeId, KnownInput>): seq<InputReference>
    requires WellFormed(t) && node in t
  {
    ClassReferences(t, node, env, known) + IdentifierReferences(t, node, env, known)
  }

  /** The replacements pass 2 adds for one node, with their files, in order. */
  function NodeEdits(t: Tree, node: NodeId, env: Pass2Env, known: map<NodeId, KnownInput>): seq<Edit>
    requires WellFormed(t) && node in t
  {
    ClassEdits(t, node, env, known) + IdentifierEdits(t, node, env, known)
  }

  /** The incompatibility pass 2 records for one node, if any. */
  function NodeIncompatibility(t: Tree, node: NodeId, env: Pass2Env, known: map<NodeId, KnownInput>)
    : Option<(InputId, Incompatibility)>
    requires WellFormed(t) && node in t
  {
    if IsReferenceCandidate(t, node) && TsTarget(node, env, known).Some? && IsAssignment(t, AccessParent(t, node))
    then Some((known[TsTarget(node, env, known).value.1].inputId, Incompatibility(WriteAssignment, AccessParent(t, node))))
    else None
  }

  // ---------------------------------------------------------------- folds over the visited nodes

  function ReferencesAfter(t: Tree, nodes: seq<NodeId>, env: Pass2Env, known: map<NodeId, KnownInput>): seq<InputReference>
    requires WellFormed(t) && AllInTree(t, nodes)
  {
    if nodes == [] then []
    else ReferencesAfter(t, nodes[..|nodes| - 1], env, known) + NodeReferences(t, nodes[|nodes| - 1], env, known)
  }

  function EditsAfter(t: Tree, nodes: seq<NodeId>, env: Pass2Env, known: map<NodeId, KnownInput>): seq<Edit>
    requires WellFormed(t) && AllInTree(t, nodes)
  {
    if nodes == [] then []
    else EditsAfter(t, nodes[..|nodes| - 1], env, known) + NodeEdits(t, nodes[|nodes| - 1], env, known)
  }

  function IncompatibleAfter(t: Tree, m: map<InputId, Incompatibility>, nodes: seq<NodeId>, env: Pass2Env,
                             known: map<NodeId, KnownInput>): map<InputId, Incompatibility>
    requires WellFormed(t) && AllInTree(t, nodes)
  {
    if nodes == [] then m
    else
      var before := IncompatibleAfter(t, m, nodes[..|nodes| - 1], env, known);
      match NodeIncompatibility(t, nodes[|nodes| - 1], env, known)
      case None => before
      case Some(entry) => before[entry.0 := entry.1]
  }

  // ---------------------------------------------------------------- the pass

  /** The loop over the visitor's results: one reference and one `()` insertion each. */
  method RecordTemplateResults(t: Tree, cls: NodeId, env: Pass2Env, results: seq<TmplInputExpressionReference>,
                               result: MigrationResult)
    requires cls in t
    modifies result`references, result`replacements
    ensures result.references == old(result.references) + TemplateReferencesOf(t, cls, env, results)
    ensures result.replacements == WithEdits(old(result.replacements), TemplateEditsOf(results))
  {
    for i := 0 to |results|
      invariant result.references == old(result.references) + TemplateReferencesOf(t, cls, env, results[..i])
      invariant result.replacements == WithEdits(old(result.replacements), TemplateEditsOf(results[..i]))
    {
      var res := results[i];
      assert results[..i + 1][..i] == results[..i];
      result.AddReference(TemplateReference(t, cls, env, res));
      result.AddReplacement(res.containingUrl, CallInsertion(res.readSpanEnd));
    }
    assert results[..|results|] == results;
  }

  /** `identifyTemplateReferences`: visit the class's template and record each result.
      `known` is the known-inputs registry, which pass 2 only reads. */
  method IdentifyTemplateReferences(t: Tree, cls: NodeId, env: Pass2Env, known: map<NodeId, KnownInput>,
                                    result: MigrationResult)
    requires cls in t
    modifies result`references, result`replacements
    ensures result.references == old(result.references) + TemplateReferencesOf(t, cls, env, TemplateResults(cls, env, known))
    ensures result.replacements == WithEdits(old(result.replacements), TemplateEditsOf(TemplateResults(cls, env, known)))
  {
    var template := env.templateOf(cls);
    if template.None? {
      return;
    }
    var visitor := new TemplateReferenceVisitor(env.templateServices(cls), known);
    visitor.VisitNodes(template.value);
    var results := visitor.Result();
    assert results == TemplateResults(cls, env, known);
    assert result.references == old(result.references);
    assert result.replacements == old(result.replacements);
    RecordTemplateResults(t, cls, env, results, result);
  }

  /** `identifyPotentialTypeScriptReference`, which the visitor calls for identifiers that
      are not the name of their property declaration. */
  method IdentifyPotentialTypeScriptReference(t: Tree, node: NodeId, env: Pass2Env, known: map<NodeId, KnownInput>,
                                              result: MigrationResult)
    requires WellFormed(t) && node in t && IsReferenceCandidate(t, node)
    modifies result`references, result`replacements, result`incompatibleInputs
    ensures result.references == old(result.references) + IdentifierReferences(t, node, env, known)
    ensures result.replacements == WithEdits(old(result.replacements), IdentifierEdits(t, node, env, known))
    ensures result.incompatibleInputs == IncompatibleAfter(t, old(result.incompatibleInputs), [node], env, known)
  {
    assert [node][..0] == [];
    var target := env.symbolAt(node);
    if target.None? {
      return;
    }
    var targetDecl := FindKnownDeclaration(DeclarationsOf(target), known);
    if targetDecl.None? {
      return;
    }
    var inputId := known[targetDecl.value].inputId;
    result.AddReference(TsInputReference(TsFrom(FileToId(env.host, SourceFileRef(t[node].file), env.relative), node),
                                         inputId, target.value));
    var e := Edit(t[node].file.fileName, CallInsertion(t[node].end));
    result.AddReplacement(e.file, e.replacement);
    assert [e][..0] == [];
    var accessParent := AccessParent(t, node);
    if t[accessParent].kind.BinaryExpression? && t[accessParent].kind.operator == EqualsToken {
      result.MarkIncompatible(inputId, Incompatibility(WriteAssignment, accessParent));
    }
  }

  /** The visitor's work on one node: a component class's template, then an identifier. */
  method VisitNode(t: Tree, node: NodeId, env: Pass2Env, known: map<NodeId, KnownInput>, result: MigrationResult)
    requires WellFormed(t) && node in t
    modifies result`references, result`replacements, result`incompatibleInputs
    ensures result.references == old(result.references) + NodeReferences(t, node, env, known)
    ensures result.replacements == WithEdits(old(result.replacements), NodeEdits(t, node, env, known))
    ensures result.incompatibleInputs == IncompatibleAfter(t, old(result.incompatibleInputs), [node], env, known)
  {
    if t[node].kind.ClassDeclaration? {
      IdentifyTemplateReferences(t, node, env, known, result);
    }
    assert result.references == old(result.references) + ClassReferences(t, node, env, known);
    assert result.replacements == WithEdits(old(result.replacements), ClassEdits(t, node, env, known));
    assert result.incompatibleInputs == old(result.incompatibleInputs);
    if IsReferenceCandidate(t, node) {
      IdentifyPotentialTypeScriptReference(t, node, env, known, result);
    } else {
      assert [node][..0] == [];
    }
    ConcatAssociative(old(result.references), ClassReferences(t, node, env, known), IdentifierReferences(t, node, env, known));
    WithEditsConcat(old(result.replacements), ClassEdits(t, node, env, known), IdentifierEdits(t, node, env, known));
  }

  /** Visiting one more node extends each fold by that node's effects. */
  lemma AfterStep(t: Tree, nodes: seq<NodeId>, i: nat, env: Pass2Env, known: map<NodeId, KnownInput>,
                  m: map<InputId, Incompatibility>)
    requires WellFormed(t) && AllInTree(t, nodes) && i < |nodes|
    ensures ReferencesAfter(t, nodes[..i + 1], env, known) == ReferencesAfter(t, nodes[..i], env, known) + NodeReferences(t, nodes[i], env, known)
    ensures EditsAfter(t, nodes[..i + 1], env, known) == EditsAfter(t, nodes[..i], env, known) + NodeEdits(t, nodes[i], env, known)
    ensures IncompatibleAfter(t, m, nodes[..i + 1], env, known)
            == IncompatibleAfter(t, IncompatibleAfter(t, m, nodes[..i], env, known), [nodes[i]], env, known)
  {
    var p := nodes[..i + 1];
    assert p[..|p| - 1] == nodes[..i] && p[|p| - 1] == nodes[i];
    IncompatibleStep(t, m, p, env, known);
  }

  /** The last node of a prefix adds its incompatibility on top of the ones before it. */
  lemma IncompatibleStep(t: Tree, m: map<InputId, Incompatibility>, p: seq<NodeId>, env: Pass2Env,
                         known: map<NodeId, KnownInput>)
    requires WellFormed(t) && AllInTree(t, p) && |p| > 0
    ensures IncompatibleAfter(t, m, p, env, known)
            == IncompatibleAfter(t, IncompatibleAfter(t, m, p[..|p| - 1], env, known), [p[|p| - 1]], env, known)
  {
    assert [p[|p| - 1]][..0] == [];
  }

  /** After visiting the first `i` nodes, each of the result's lists is its value before
      the visit extended by the folds over those nodes. */
  ghost predicate VisitedPrefix(t: Tree, nodes: seq<NodeId>, i: nat, env: Pass2Env, known: map<NodeId, KnownInput>,
                                result: MigrationResult, refs0: seq<InputReference>,
                                replacements0: map<string, seq<Replacement>>, incompatible0: map<InputId, Incompatibility>)
    requires WellFormed(t) && AllInTree(t, nodes) && i <= |nodes|
    reads result
  {
    && result.references == refs0 + ReferencesAfter(t, nodes[..i], env, known)
    && result.replacements == WithEdits(replacements0, EditsAfter(t, nodes[..i], env, known))
    && result.incompatibleInputs == IncompatibleAfter(t, incompatible0, nodes[..i], env, known)
  }

  /** One iteration of the visit: the folds over the first `i` nodes become the folds over
      the first `i + 1`. */
  method VisitNodeAt(t: Tree, nodes: seq<NodeId>, i: nat, env: Pass2Env, known: map<NodeId, KnownInput>,
                     result: MigrationResult, ghost refs0: seq<InputReference>,
                     ghost replacements0: map<string, seq<Replacement>>, ghost incompatible0: map<InputId, Incompatibility>)
    requires WellFormed(t) && AllInTree(t, nodes) && i < |nodes|
    requires VisitedPrefix(t, nodes, i, env, known, result, refs0, replacements0, incompatible0)
    modifies result`references, result`replacements, result`incompatibleInputs
    ensures VisitedPrefix(t, nodes, i + 1, env, known, result, refs0, replacements0, incompatible0)
  {
    AfterStep(t, nodes, i, env, known, incompatible0);
    VisitNode(t, nodes[i], env, known, result);
    ConcatAssociative(refs0, ReferencesAfter(t, nodes[..i], env, known), NodeReferences(t, nodes[i], env, known));
    WithEditsConcat(replacements0, EditsAfter(t, nodes[..i], env, known), NodeEdits(t, nodes[i], env, known));
  }

  /** `pass2_IdentifySourceFileReferences`. `nodes` are the descendants of the source file `sf`
      in the order `ts.forEachChild` visits them. */
  method IdentifySourceFileReferences(t: Tree, sf: NodeId, nodes: seq<NodeId>, env: Pass2Env, known: map<NodeId, KnownInput>,
                                      result: MigrationResult)
    requires WellFormed(t) && sf in t && t[sf].kind.SourceFile? && AllInTree(t, nodes) && DescendantWalk(t, sf, nodes)
    modifies result`references, result`replacements, result`incompatibleInputs
    ensures result.references == old(result.references) + ReferencesAfter(t, nodes, env, known)
    ensures result.replacements == WithEdits(old(result.replacements), EditsAfter(t, nodes, env, known))
    ensures result.incompatibleInputs == IncompatibleAfter(t, old(result.incompatibleInputs), nodes, env, known)
  {
    ghost var refs0, replacements0, incompatible0 := result.references, result.replacements, result.incompatibleInputs;
    for i := 0 to |nodes|
      invariant VisitedPrefix(t, nodes, i, env, known, result, refs0, replacements0, incompatible0)
    {
      VisitNodeAt(t, nodes, i, env, known, result, refs0, replacements0, incompatible0);
    }
    assert nodes[..|nodes|] == nodes;
  }

  // ---------------------------------------------------------------- properties

  /** The name of a property declaration is never a reference, even when it is an input. */
  lemma DeclarationNameIsNotAReference(t: Tree, node: NodeId, env: Pass2Env, known: map<NodeId, KnownInput>)
    requires WellFormed(t) && IsIdentifier(t, node)
    requires t[ParentOf(t, node)].kind.PropertyDeclaration? && t[ParentOf(t, node)].name == Some(node)
    ensures NodeReferences(t, node, env, known) == [] && NodeEdits(t, node, env, known) == []
    ensures NodeIncompatibility(t, node, env, known).None?
  {
  }

  /** An identifier resolving to a known input yields exactly one TypeScript reference to
      that input and one `()` inserted right after it in its own file. */
  lemma MatchedIdentifierEffects(t: Tree, node: NodeId, env: Pass2Env, known: map<NodeId, KnownInput>)
    requires WellFormed(t) && IsReferenceCandidate(t, node)
    requires TsTarget(node, env, known).Some?
    ensures var target := TsTarget(node, env, known).value;
            && target.1 in known && target.1 in DeclarationsOf(Some(target.0))
            && NodeReferences(t, node, env, known) == [TsReference(t, node, env, known, target)]
            && NodeReferences(t, node, env, known)[0].target == known[target.1].inputId
            && NodeEdits(t, node, env, known) == [Edit(t[node].file.fileName, Replacement(t[node].end, t[node].end, "()"))]
  {
  }

  /** Each reference pass 2 records comes with exactly one replacement. */
  lemma {:induction false} OneReplacementPerReference(t: Tree, nodes: seq<NodeId>, env: Pass2Env, known: map<NodeId, KnownInput>)
    requires WellFormed(t) && AllInTree(t, nodes)
    ensures |ReferencesAfter(t, nodes, env, known)| == |EditsAfter(t, nodes, env, known)|
    decreases |nodes|
  {
    if nodes != [] {
      OneReplacementPerReference(t, nodes[..|nodes| - 1], env, known);
    }
  }

  /** Pass 2 only inserts: every replacement is an empty span followed by `()`. */
  lemma {:induction false} EditsAreCallInsertions(t: Tree, nodes: seq<NodeId>, env: Pass2Env, known: map<NodeId, KnownInput>)
    requires WellFormed(t) && AllInTree(t, nodes)
    ensures forall e :: e in EditsAfter(t, nodes, env, known) ==>
              e.replacement.pos == e.replacement.end && e.replacement.toInsert == "()"
    decreases |nodes|
  {
    if nodes != [] {
      EditsAreCallInsertions(t, nodes[..|nodes| - 1], env, known);
    }
  }

  /** An input is marked incompatible exactly when some visited identifier resolving to it
      has an `=` expression as the first non-wrapper ancestor of its access; the recorded
      context is then that expression. */
  lemma {:induction false} IncompatibleOnlyWhenWritten(t: Tree, m: map<InputId, Incompatibility>, nodes: seq<NodeId>,
                                                       env: Pass2Env, known: map<NodeId, KnownInput>, id: InputId)
    requires WellFormed(t) && AllInTree(t, nodes)
    ensures id in IncompatibleAfter(t, m, nodes, env, known) <==>
              id in m || exists n :: n in nodes && NodeIncompatibility(t, n, env, known).Some?
                                   && NodeIncompatibility(t, n, env, known).value.0 == id
    ensures id in IncompatibleAfter(t, m, nodes, env, known) && id !in m ==>
              var info := IncompatibleAfter(t, m, nodes, env, known)[id];
              info.reason == WriteAssignment && info.context in t && IsAssignment(t, info.context)
    decreases |nodes|
  {
    if nodes != [] {
      var init := nodes[..|nodes| - 1];
      IncompatibleOnlyWhenWritten(t, m, init, env, known, id);
      assert forall x :: x in nodes <==> x in init || x == nodes[|nodes| - 1];
    }
  }

  /** What a visited node records is among what the pass records. */
  lemma {:induction false} NodeReferencesRecorded(t: Tree, nodes: seq<NodeId>, env: Pass2Env,
                                                  known: map<NodeId, KnownInput>, n: NodeId)
    requires WellFormed(t) && AllInTree(t, nodes) && n in nodes
    ensures forall r :: r in NodeReferences(t, n, env, known) ==> r in ReferencesAfter(t, nodes, env, known)
    decreases |nodes|
  {
    var init := nodes[..|nodes| - 1];
    if n != nodes[|nodes| - 1] {
      assert n in init by {
        var i :| 0 <= i < |nodes| && nodes[i] == n;
        assert init[i] == n;
      }
      NodeReferencesRecorded(t, init, env, known, n);
    }
  }

  /** Once the walk over a file is over, every identifier below the file that resolves to a
      known input, other than a declaration's name, has its TypeScript reference recorded. */
  lemma WalkRecordsEveryReference(t: Tree, sf: NodeId, nodes: seq<NodeId>, env: Pass2Env,
                                  known: map<NodeId, KnownInput>, n: NodeId)
    requires WellFormed(t) && sf in t && AllInTree(t, nodes) && DescendantWalk(t, sf, nodes)
    requires n in t && n != sf && AncestorOrSelf(t, sf, n)
    requires IsReferenceCandidate(t, n) && TsTarget(n, env, known).Some?
    ensures TsReference(t, n, env, known, TsTarget(n, env, known).value) in ReferencesAfter(t, nodes, env, known)
  {
    MatchedIdentifierEffects(t, n, env, known);
    NodeReferencesRecorded(t, nodes, env, known, n);
  }

  /** Every TypeScript reference recorded comes from a visited identifier that is not a
      declaration name and resolves to a known input; every template reference comes from
      a visited component class. */
  lemma {:induction false} ReferenceOrigin(t: Tree, nodes: seq<NodeId>, env: Pass2Env, known: map<NodeId, KnownInput>,
                                           r: InputReference)
    requires WellFormed(t) && AllInTree(t, nodes)
    requires r in ReferencesAfter(t, nodes, env, known)
    ensures r.TsInputReference? ==>
              exists n :: n in nodes && IsReferenceCandidate(t, n) && TsTarget(n, env, known).Some?
                          && r == TsReference(t, n, env, known, TsTarget(n, env, known).value)
    ensures r.TemplateInputReference? ==>
              exists n :: n in nodes && t[n].kind.ClassDeclaration?
                          && r in TemplateReferencesOf(t, n, env, TemplateResults(n, env, known))
    decreases |nodes|
  {
    var init := nodes[..|nodes| - 1];
    var last := nodes[|nodes| - 1];
    assert last in nodes;
    assert forall x :: x in init ==> x in nodes;
    if r in ReferencesAfter(t, init, env, known) {
      ReferenceOrigin(t, init, env, known, r);
    } else {
      assert r in NodeReferences(t, last, env, known);
      if r.TsInputReference? {
        assert !(r in TemplateReferencesOf(t, last, env, TemplateResults(last, env, known)));
      }
    }
  }
}
