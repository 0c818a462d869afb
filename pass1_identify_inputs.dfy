/** Pass 1 (passes/1_identify_inputs.ts): visits every node of a source file, registers
    each `@Input` field in the known inputs, and for inputs declared in this source file
    records the declaration rewrite; imports of `Input` from `@angular/core` become `input`. */
module IdentifyInputs {
  import opened Wrappers
  import opened Ast
  import opened Replacements
  import opened InputIds
  import opened InputDecorators
  import opened SignalInputConversion
  import opened MigrationHosts
  import opened MigrationResults

  /** An entry of `KnownInputs`: the extracted metadata and the input's id. */
  datatype KnownInput = KnownInput(input: ExtractedInput, inputId: InputId)

  /** `KnownInputs`, a weak map from declaration nodes to their known input. */
  class KnownInputs {
    var entries: map<NodeId, KnownInput>

    constructor()
      ensures entries == map[]
    {
      entries := map[];
    }

    method Set(node: NodeId, value: KnownInput)
      modifies this
      ensures entries == old(entries)[node := value]
    {
      entries := entries[node := value];
    }
  }

  /** `declarations.find((d) => knownInputs.has(d))`: the first declaration that is a known input. */
  function FindKnownDeclaration(decls: seq<NodeId>, known: map<NodeId, KnownInput>): (r: Option<NodeId>)
    ensures r.Some? ==> r.value in decls && r.value in known
    ensures r.Some? ==> exists i :: 0 <= i < |decls| && decls[i] == r.value && forall j :: 0 <= j < i ==> decls[j] !in known
    ensures r.None? <==> forall d :: d in decls ==> d !in known
  {
    if decls == [] then None
    else if decls[0] in known then Some(decls[0])
    else
      var rest := FindKnownDeclaration(decls[1..], known);
      assert rest.Some? ==> (exists i :: 0 <= i < |decls[1..]| && decls[1..][i] == rest.value
                                        && forall j :: 0 <= j < i ==> decls[1..][j] !in known);
      assert forall d :: d in decls ==> d == decls[0] || d in decls[1..];
      rest
  }

  /** The services pass 1 uses: the host, the extraction services, how name nodes render
      in ids, `path.relative`, the syntax of property declarations, and the printer. */
  datatype Pass1Env = Pass1Env(
    host: MigrationHost,
    svc: Services,
    show: NodeText,
    relative: RelativePath,
    syntaxOf: NodeId -> PropertySyntax,
    printer: SignalInputDeclaration -> string)

  /** What pass 1 registers for a node: the extracted input and its id, when extraction succeeds. */
  function RegisteredInput(t: Tree, node: NodeId, env: Pass1Env): Option<KnownInput>
    requires WellFormed(t) && node in t
  {
    match ExtractDecoratorInput(t, node, env.svc)
    case Ok(Some(e)) => Some(KnownInput(e, GetInputId(env.host, t, node, env.show, env.relative)))
    case _ => None
  }

  /** `(node.propertyName ?? node.name).text` of an import specifier. */
  function ImportedName(t: Tree, node: NodeId): Option<string>
    requires node in t && t[node].kind.ImportSpecifier?
  {
    match t[node].kind.propertyName
    case Some(p) => if p in t && t[p].kind.Identifier? then Some(t[p].kind.text) else None
    case None => IdentifierName(t, node)
  }

  /** An import specifier that imports `Input` from `'@angular/core'`. */
  predicate IsCoreInputImport(t: Tree, node: NodeId)
    requires node in t
  {
    t[node].kind.ImportSpecifier? && ImportedName(t, node) == Some("Input")
    && t[node].kind.moduleSpecifier == Some("@angular/core")
  }

  /** The declaration rewrite of an input declared in the source file being visited. */
  function DeclarationReplacement(t: Tree, node: NodeId, env: Pass1Env, input: ExtractedInput): Replacement
    requires node in t && !TransformIsNotExpression(input)
  {
    Replacement(t[node].start, t[node].end, env.printer(ConvertToSignalInput(env.syntaxOf(node), input).value))
  }

  /** Whether the visitor gets through a node: its extraction does not throw, and the
      conversion of an input declared in this source file does not throw either. */
  predicate VisitSucceeds(t: Tree, node: NodeId, env: Pass1Env)
    requires WellFormed(t) && node in t
  {
    && ExtractDecoratorInput(t, node, env.svc).Ok?
    && var known := RegisteredInput(t, node, env);
       known.Some? && known.value.input.inSourceFile ==> !TransformIsNotExpression(known.value.input)
  }

  /** The replacements pass 1 adds for one node it gets through, in the order it adds them. */
  function NodeReplacements(t: Tree, node: NodeId, env: Pass1Env): seq<Replacement>
    requires WellFormed(t) && node in t
  {
    var known := RegisteredInput(t, node, env);
    (if known.Some? && known.value.input.inSourceFile && !TransformIsNotExpression(known.value.input)
     then [DeclarationReplacement(t, node, env, known.value.input)] else [])
    + (if IsCoreInputImport(t, node) then [Replacement(t[node].start, t[node].end, "input")] else [])
  }

  predicate AllInTree(t: Tree, nodes: seq<NodeId>) {
    forall i :: 0 <= i < |nodes| ==> nodes[i] in t
  }

  /** The visitor gets through every node: no extraction or conversion throws. */
  predicate NoVisitError(t: Tree, nodes: seq<NodeId>, env: Pass1Env)
    requires WellFormed(t) && AllInTree(t, nodes)
  {
    forall i :: 0 <= i < |nodes| ==> VisitSucceeds(t, nodes[i], env)
  }

  function KnownAfter(t: Tree, known: map<NodeId, KnownInput>, nodes: seq<NodeId>, env: Pass1Env): map<NodeId, KnownInput>
    requires WellFormed(t) && AllInTree(t, nodes)
  {
    if nodes == [] then known
    else
      var n := nodes[|nodes| - 1];
      var before := KnownAfter(t, known, nodes[..|nodes| - 1], env);
      match RegisteredInput(t, n, env)
      case Some(k) => before[n := k]
      case None => before
  }

  function SourceInputsAfter(t: Tree, inputs: set<InputId>, nodes: seq<NodeId>, env: Pass1Env): set<InputId>
    requires WellFormed(t) && AllInTree(t, nodes)
  {
    if nodes == [] then inputs
    else
      var n := nodes[|nodes| - 1];
      var before := SourceInputsAfter(t, inputs, nodes[..|nodes| - 1], env);
      match RegisteredInput(t, n, env)
      case Some(k) => if k.input.inSourceFile then before + {k.inputId} else before
      case None => before
  }

  function ReplacementsAfter(t: Tree, nodes: seq<NodeId>, env: Pass1Env): seq<Replacement>
    requires WellFormed(t) && AllInTree(t, nodes)
  {
    if nodes == [] then []
    else ReplacementsAfter(t, nodes[..|nodes| - 1], env) + NodeReplacements(t, nodes[|nodes| - 1], env)
  }

  /** The specification for a single node. */
  lemma OneNodeAfter(t: Tree, node: NodeId, env: Pass1Env, known0: map<NodeId, KnownInput>, inputs0: set<InputId>)
    requires WellFormed(t) && node in t
    ensures AllInTree(t, [node])
    ensures KnownAfter(t, known0, [node], env)
            == if RegisteredInput(t, node, env).Some? then known0[node := RegisteredInput(t, node, env).value] else known0
    ensures SourceInputsAfter(t, inputs0, [node], env)
            == if RegisteredInput(t, node, env).Some? && RegisteredInput(t, node, env).value.input.inSourceFile
               then inputs0 + {RegisteredInput(t, node, env).value.inputId} else inputs0
    ensures ReplacementsAfter(t, [node], env) == NodeReplacements(t, node, env)
  {
    assert [node][..0] == [];
  }

  /** The visitor's work on one node: register its input, record a source input and its
      declaration rewrite, and rewrite an `Input` import. */
  method VisitNode(t: Tree, node: NodeId, fileName: string, env: Pass1Env, known: KnownInputs, result: MigrationResult)
    returns (outcome: Result<()>)
    requires WellFormed(t) && node in t
    modifies known, result`sourceInputs, result`replacements
    ensures outcome.Ok? <==> VisitSucceeds(t, node, env)
    ensures outcome.Ok? ==>
              && known.entries == KnownAfter(t, old(known.entries), [node], env)
              && result.sourceInputs == SourceInputsAfter(t, old(result.sourceInputs), [node], env)
              && result.replacements == WithReplacements(old(result.replacements), fileName, NodeReplacements(t, node, env))
  {
    OneNodeAfter(t, node, env, known.entries, result.sourceInputs);
    var decoratorInput := ExtractDecoratorInput(t, node, env.svc);
    if decoratorInput.Err? {
      return Err(decoratorInput.message);
    }
    var declarationRewrite: seq<Replacement> := [];
    if decoratorInput.value.Some? {
      var input := decoratorInput.value.value;
      var inputId := GetInputId(env.host, t, node, env.show, env.relative);
      known.Set(node, KnownInput(input, inputId));
      if input.inSourceFile {
        result.AddSourceInput(inputId);
        var converted := ConvertToSignalInput(env.syntaxOf(node), input);
        if converted.Err? {
          return Err(converted.message);
        }
        var r := DeclarationReplacement(t, node, env, input);
        result.AddReplacement(fileName, r);
        declarationRewrite := [r];
        assert declarationRewrite[..0] == [];
      }
    }
    assert result.replacements == WithReplacements(old(result.replacements), fileName, declarationRewrite);
    if IsCoreInputImport(t, node) {
      var r := Replacement(t[node].start, t[node].end, "input");
      result.AddReplacement(fileName, r);
      assert (declarationRewrite + [r])[..|declarationRewrite|] == declarationRewrite;
    }
    assert [node][..0] == [];
    return Ok(());
  }

  /** Adding two batches of replacements one after the other adds their concatenation. */
  lemma {:induction false} WithReplacementsConcat(m: map<string, seq<Replacement>>, file: string,
                                                  a: seq<Replacement>, b: seq<Replacement>)
    ensures WithReplacements(WithReplacements(m, file, a), file, b) == WithReplacements(m, file, a + b)
    decreases |b|
  {
    if b != [] {
      WithReplacementsConcat(m, file, a, b[..|b| - 1]);
      assert (a + b)[..|a + b| - 1] == a + b[..|b| - 1];
    } else {
      assert a + b == a;
    }
  }

  /** The state after handling the first `i` nodes, from the state `known0`, `inputs0`,
      `replacements0` the pass started in. */
  ghost predicate IdentifiedPrefix(t: Tree, nodes: seq<NodeId>, i: nat, fileName: string, env: Pass1Env,
                                   known: KnownInputs, result: MigrationResult, known0: map<NodeId, KnownInput>,
                                   inputs0: set<InputId>, replacements0: map<string, seq<Replacement>>)
    requires WellFormed(t) && AllInTree(t, nodes) && i <= |nodes|
    reads known, result
  {
    && known.entries == KnownAfter(t, known0, nodes[..i], env)
    && result.sourceInputs == SourceInputsAfter(t, inputs0, nodes[..i], env)
    && result.replacements == WithReplacements(replacements0, fileName, ReplacementsAfter(t, nodes[..i], env))
  }

  /** The specification after `i + 1` nodes is the one after `i` nodes extended by the
      `i`-th node. */
  lemma PrefixStep(t: Tree, nodes: seq<NodeId>, i: nat, fileName: string, env: Pass1Env,
                   known0: map<NodeId, KnownInput>, inputs0: set<InputId>, replacements0: map<string, seq<Replacement>>)
    requires WellFormed(t) && AllInTree(t, nodes) && i < |nodes|
    ensures AllInTree(t, nodes[..i]) && AllInTree(t, nodes[..i + 1])
    ensures KnownAfter(t, known0, nodes[..i + 1], env) == KnownAfter(t, KnownAfter(t, known0, nodes[..i], env), [nodes[i]], env)
    ensures SourceInputsAfter(t, inputs0, nodes[..i + 1], env)
            == SourceInputsAfter(t, SourceInputsAfter(t, inputs0, nodes[..i], env), [nodes[i]], env)
    ensures WithReplacements(replacements0, fileName, ReplacementsAfter(t, nodes[..i + 1], env))
            == WithReplacements(WithReplacements(replacements0, fileName, ReplacementsAfter(t, nodes[..i], env)),
                                fileName, NodeReplacements(t, nodes[i], env))
  {
    var prefix := nodes[..i];
    assert nodes[..i + 1] == prefix + [nodes[i]];
    assert (prefix + [nodes[i]])[..i] == prefix;
    assert [nodes[i]][..0] == [];
    WithReplacementsConcat(replacements0, fileName, ReplacementsAfter(t, prefix, env), NodeReplacements(t, nodes[i], env));
  }

  /** One iteration of the visit: when the `i`-th node's extraction succeeds, the state
      after the first `i` nodes becomes the state after the first `i + 1`. */
  method IdentifyNodeAt(t: Tree, nodes: seq<NodeId>, i: nat, fileName: string, env: Pass1Env,
                        known: KnownInputs, result: MigrationResult, ghost known0: map<NodeId, KnownInput>,
                        ghost inputs0: set<InputId>, ghost replacements0: map<string, seq<Replacement>>)
    returns (outcome: Result<()>)
    requires WellFormed(t) && AllInTree(t, nodes) && i < |nodes|
    requires IdentifiedPrefix(t, nodes, i, fileName, env, known, result, known0, inputs0, replacements0)
    modifies known, result`sourceInputs, result`replacements
    ensures outcome.Ok? <==> VisitSucceeds(t, nodes[i], env)
    ensures outcome.Ok? ==> IdentifiedPrefix(t, nodes, i + 1, fileName, env, known, result, known0, inputs0, replacements0)
  {
    PrefixStep(t, nodes, i, fileName, env, known0, inputs0, replacements0);
    outcome := VisitNode(t, nodes[i], fileName, env, known, result);
  }

  /** The visitor got through one more node. */
  lemma NoVisitErrorStep(t: Tree, nodes: seq<NodeId>, env: Pass1Env, i: nat)
    requires WellFormed(t) && AllInTree(t, nodes) && i < |nodes|
    requires NoVisitError(t, nodes[..i], env) && VisitSucceeds(t, nodes[i], env)
    ensures NoVisitError(t, nodes[..i + 1], env)
  {
    assert forall j :: 0 <= j < i + 1 ==> nodes[..i + 1][j] == nodes[j];
  }

  /** `pass1__IdentifySourceFileAndDeclarationInputs`. `nodes` are the descendants of `sf`
      in the order `ts.forEachChild` visits them. On success every node has been handled;
      an extraction or conversion error stops the pass at the first node that throws. */
  method IdentifySourceFileAndDeclarationInputs(t: Tree, sf: NodeId, nodes: seq<NodeId>, env: Pass1Env,
                                                known: KnownInputs, result: MigrationResult)
    returns (outcome: Result<()>)
    requires WellFormed(t) && sf in t && t[sf].kind.SourceFile? && AllInTree(t, nodes) && DescendantWalk(t, sf, nodes)
    modifies known, result`sourceInputs, result`replacements
    ensures outcome.Ok? ==>
              && NoVisitError(t, nodes, env)
              && known.entries == KnownAfter(t, old(known.entries), nodes, env)
              && result.sourceInputs == SourceInputsAfter(t, old(result.sourceInputs), nodes, env)
              && result.replacements == WithReplacements(old(result.replacements), t[sf].file.fileName,
                                                         ReplacementsAfter(t, nodes, env))
    ensures outcome.Err? ==>
              exists k :: 0 <= k < |nodes|
                && NoVisitError(t, nodes[..k], env)
                && !VisitSucceeds(t, nodes[k], env)
  {
    var fileName := t[sf].file.fileName;
    ghost var known0, inputs0, replacements0 := known.entries, result.sourceInputs, result.replacements;
    for i := 0 to |nodes|
      invariant NoVisitError(t, nodes[..i], env)
      invariant IdentifiedPrefix(t, nodes, i, fileName, env, known, result, known0, inputs0, replacements0)
    {
      var visited := IdentifyNodeAt(t, nodes, i, fileName, env, known, result, known0, inputs0, replacements0);
      if visited.Err? {
        return Err(visited.message);
      }
      NoVisitErrorStep(t, nodes, env, i);
    }
    assert nodes[..|nodes|] == nodes;
    return Ok(());
  }

  /** An input declared in the source file whose transform resolves to a node that is not
      an expression (a `function` declaration) makes the conversion's assertion fail, so
      the pass cannot succeed once it reaches that input. */
  lemma NonExpressionTransformStopsPass(t: Tree, nodes: seq<NodeId>, env: Pass1Env, i: nat)
    requires WellFormed(t) && AllInTree(t, nodes) && i < |nodes|
    requires RegisteredInput(t, nodes[i], env).Some? && RegisteredInput(t, nodes[i], env).value.input.inSourceFile
    requires TransformIsNotExpression(RegisteredInput(t, nodes[i], env).value.input)
    ensures !VisitSucceeds(t, nodes[i], env) && !NoVisitError(t, nodes, env)
  {
  }

  /** Every node whose extraction succeeds is registered under that node, whether the
      input comes from a source file or a declaration file; nothing else is registered. */
  lemma {:induction false} KnownAfterRegisters(t: Tree, known: map<NodeId, KnownInput>, nodes: seq<NodeId>,
                                               env: Pass1Env, n: NodeId)
    requires WellFormed(t) && AllInTree(t, nodes)
    ensures n in KnownAfter(t, known, nodes, env) <==>
              n in known || (n in nodes && RegisteredInput(t, n, env).Some?)
    ensures n in nodes && RegisteredInput(t, n, env).Some? ==>
              KnownAfter(t, known, nodes, env)[n] == RegisteredInput(t, n, env).value
    decreases |nodes|
  {
    if nodes != [] {
      var init := nodes[..|nodes| - 1];
      KnownAfterRegisters(t, known, init, env, n);
      assert forall x :: x in nodes <==> x in init || x == nodes[|nodes| - 1];
    }
  }

  /** Once the walk over a file is over, every input declared anywhere below the file is
      registered under its declaration. */
  lemma WalkRegistersEveryInput(t: Tree, sf: NodeId, known: map<NodeId, KnownInput>, nodes: seq<NodeId>,
                                env: Pass1Env, n: NodeId)
    requires WellFormed(t) && sf in t && AllInTree(t, nodes) && DescendantWalk(t, sf, nodes)
    requires n in t && n != sf && AncestorOrSelf(t, sf, n) && RegisteredInput(t, n, env).Some?
    ensures n in KnownAfter(t, known, nodes, env)
    ensures KnownAfter(t, known, nodes, env)[n] == RegisteredInput(t, n, env).value
  {
    KnownAfterRegisters(t, known, nodes, env, n);
  }

  /** Only inputs found in a source file (not in a declaration file) join `sourceInputs`. */
  lemma {:induction false} SourceInputsAfterOnlySource(t: Tree, inputs: set<InputId>, nodes: seq<NodeId>,
                                                       env: Pass1Env, id: InputId)
    requires WellFormed(t) && AllInTree(t, nodes)
    ensures id in SourceInputsAfter(t, inputs, nodes, env) <==>
              id in inputs || exists n :: n in nodes && RegisteredInput(t, n, env).Some?
                                        && RegisteredInput(t, n, env).value.input.inSourceFile
                                        && RegisteredInput(t, n, env).value.inputId == id
    decreases |nodes|
  {
    if nodes != [] {
      var init := nodes[..|nodes| - 1];
      SourceInputsAfterOnlySource(t, inputs, init, env, id);
      assert forall x :: x in nodes <==> x in init || x == nodes[|nodes| - 1];
    }
  }

  /** Every replacement pass 1 adds is either the whole-span rewrite of an input declared
      in a source file, or the whole-span `input` rewrite of an `Input` import from
      `@angular/core`. */
  lemma {:induction false} ReplacementsAfterOrigin(t: Tree, nodes: seq<NodeId>, env: Pass1Env, r: Replacement)
    requires WellFormed(t) && AllInTree(t, nodes)
    requires r in ReplacementsAfter(t, nodes, env)
    ensures exists n :: n in nodes && r.pos == t[n].start && r.end == t[n].end &&
              ((RegisteredInput(t, n, env).Some? && RegisteredInput(t, n, env).value.input.inSourceFile
                && !TransformIsNotExpression(RegisteredInput(t, n, env).value.input)
                && r == DeclarationReplacement(t, n, env, RegisteredInput(t, n, env).value.input))
               || (IsCoreInputImport(t, n) && r.toInsert == "input"))
    decreases |nodes|
  {
    var init := nodes[..|nodes| - 1];
    var last := nodes[|nodes| - 1];
    if r in ReplacementsAfter(t, init, env) {
      ReplacementsAfterOrigin(t, init, env, r);
      var n :| n in init && r.pos == t[n].start && r.end == t[n].end &&
              ((RegisteredInput(t, n, env).Some? && RegisteredInput(t, n, env).value.input.inSourceFile
                && !TransformIsNotExpression(RegisteredInput(t, n, env).value.input)
                && r == DeclarationReplacement(t, n, env, RegisteredInput(t, n, env).value.input))
               || (IsCoreInputImport(t, n) && r.toInsert == "input"));
      assert n in nodes;
    } else {
      assert r in NodeReplacements(t, last, env);
      assert last in nodes;
    }
  }

  /** Each `Input` import from `@angular/core` among the visited nodes is rewritten to `input`. */
  lemma {:induction false} CoreInputImportRewritten(t: Tree, nodes: seq<NodeId>, env: Pass1Env, i: nat)
    requires WellFormed(t) && AllInTree(t, nodes) && i < |nodes|
    requires IsCoreInputImport(t, nodes[i])
    ensures Replacement(t[nodes[i]].start, t[nodes[i]].end, "input") in ReplacementsAfter(t, nodes, env)
    decreases |nodes|
  {
    if i < |nodes| - 1 {
      var init := nodes[..|nodes| - 1];
      CoreInputImportRewritten(t, init, env, i);
    } else {
      assert Replacement(t[nodes[i]].start, t[nodes[i]].end, "input") in NodeReplacements(t, nodes[i], env);
    }
  }
}
