/** `pass3__migrateTypeScriptReferences` (passes/3_migrate_ts_references.ts): group the
    TypeScript references by input, run the flow analysis on each group, and turn its
    marks into `const __tmpN = …();` declarations and `__tmpN` substitutions. */
module MigrateTsReferences {
  import opened Wrappers
  import opened Ast
  import opened Strings
  import opened Replacements
  import opened InputIds
  import opened InputReferences
  import opened MigrationResults
  import opened AccessTraversal
  import opened FlowNodes
  import opened ControlFlowAnalysis

  /** The type checker as pass 3 uses it: `getTypeOfSymbol`, `getTypeAtLocation` (types
      compared by identity) and the binder's flow graph. */
  datatype Pass3Env = Pass3Env(typeOfSymbol: Symbol -> nat, typeAt: NodeId -> nat, flow: FlowGraph)

  /** One entry of the `tsReferences` map: the accesses of one input and its declared type. */
  datatype TsReferenceGroup = TsReferenceGroup(target: InputId, accesses: seq<NodeId>, targetType: nat)

  // ---------------------------------------------------------------- grouping

  /** `tsReferences.get(target)`: the map is kept as its entries in insertion order. */
  function FindGroup(groups: seq<TsReferenceGroup>, target: InputId): (r: Option<nat>)
    ensures r.Some? ==> r.value < |groups| && groups[r.value].target == target
    ensures r.None? <==> forall i :: 0 <= i < |groups| ==> groups[i].target != target
  {
    if groups == [] then None
    else if groups[|groups| - 1].target == target then Some(|groups| - 1)
    else FindGroup(groups[..|groups| - 1], target)
  }

  /** One turn of the grouping loop: template references are skipped; a TypeScript
      reference opens its input's group, typed by its own symbol, when there is none yet,
      and its node is appended to the group. */
  function AddToGroups(groups: seq<TsReferenceGroup>, ref: InputReference, typeOfSymbol: Symbol -> nat)
    : seq<TsReferenceGroup>
  {
    match ref
    case TemplateInputReference(_, _) => groups
    case TsInputReference(from, target, symbol) =>
      match FindGroup(groups, target)
      case None => groups + [TsReferenceGroup(target, [from.node], typeOfSymbol(symbol))]
      case Some(i) => groups[i := groups[i].(accesses := groups[i].accesses + [from.node])]
  }

  /** The `tsReferences` map after the grouping loop over `refs`. */
  function Groups(refs: seq<InputReference>, typeOfSymbol: Symbol -> nat): seq<TsReferenceGroup> {
    if refs == [] then []
    else AddToGroups(Groups(refs[..|refs| - 1], typeOfSymbol), refs[|refs| - 1], typeOfSymbol)
  }

  /** The reference definition of a group: the nodes of the TypeScript references to
      `target`, in reference order. */
  function AccessesOf(refs: seq<InputReference>, target: InputId): seq<NodeId> {
    if refs == [] then []
    else
      var last := refs[|refs| - 1];
      AccessesOf(refs[..|refs| - 1], target) + (if last.TsInputReference? && last.target == target then [last.tsFrom.node] else [])
  }

  /** The symbol of the first TypeScript reference to `target`. */
  function FirstSymbol(refs: seq<InputReference>, target: InputId): Option<Symbol> {
    if refs == [] then None
    else
      var last := refs[|refs| - 1];
      var before := FirstSymbol(refs[..|refs| - 1], target);
      if before.None? && last.TsInputReference? && last.target == target then Some(last.targetSymbol) else before
  }

  lemma {:induction false} FirstSymbolIffAccesses(refs: seq<InputReference>, target: InputId)
    ensures FirstSymbol(refs, target).Some? <==> AccessesOf(refs, target) != []
  {
    if refs != [] {
      FirstSymbolIffAccesses(refs[..|refs| - 1], target);
    }
  }

  ghost predicate DistinctTargets(groups: seq<TsReferenceGroup>) {
    forall i, j :: 0 <= i < j < |groups| ==> groups[i].target != groups[j].target
  }

  /** What a group holds: the accesses of its input, in order, typed by the symbol of the
      input's first TypeScript reference. */
  ghost predicate GroupsMatch(refs: seq<InputReference>, typeOfSymbol: Symbol -> nat, groups: seq<TsReferenceGroup>) {
    && DistinctTargets(groups)
    && (forall i :: 0 <= i < |groups| ==>
          && groups[i].accesses == AccessesOf(refs, groups[i].target)
          && FirstSymbol(refs, groups[i].target).Some?
          && groups[i].targetType == typeOfSymbol(FirstSymbol(refs, groups[i].target).value))
    && (forall x :: FindGroup(groups, x).Some? <==> AccessesOf(refs, x) != [])
  }

  /** Pass 3 sees only TypeScript references, one group per input that has any, holding
      exactly that input's accesses in reference order; the group's type comes from the
      first reference. */
  lemma {:induction false} GroupsPartitionTsReferences(refs: seq<InputReference>, typeOfSymbol: Symbol -> nat)
    ensures GroupsMatch(refs, typeOfSymbol, Groups(refs, typeOfSymbol))
  {
    if refs != [] {
      var init := refs[..|refs| - 1];
      var last := refs[|refs| - 1];
      GroupsPartitionTsReferences(init, typeOfSymbol);
      var before := Groups(init, typeOfSymbol);
      if last.TsInputReference? {
        if FindGroup(before, last.target).None? {
          NewGroupMatches(refs, typeOfSymbol, before);
        } else {
          ExistingGroupMatches(refs, typeOfSymbol, before);
        }
      } else {
        forall x
          ensures AccessesOf(refs, x) == AccessesOf(init, x) && FirstSymbol(refs, x) == FirstSymbol(init, x)
        {
        }
      }
    }
  }

  /** The grouping step for the first reference to an input. */
  lemma NewGroupMatches(refs: seq<InputReference>, typeOfSymbol: Symbol -> nat, before: seq<TsReferenceGroup>)
    requires |refs| > 0 && refs[|refs| - 1].TsInputReference?
    requires GroupsMatch(refs[..|refs| - 1], typeOfSymbol, before)
    requires FindGroup(before, refs[|refs| - 1].target).None?
    ensures GroupsMatch(refs, typeOfSymbol, AddToGroups(before, refs[|refs| - 1], typeOfSymbol))
  {
    var init := refs[..|refs| - 1];
    var last := refs[|refs| - 1];
    var y := last.target;
    var after := AddToGroups(before, last, typeOfSymbol);
    FirstSymbolIffAccesses(init, y);
    assert AccessesOf(init, y) == [];
    assert after == before + [TsReferenceGroup(y, [last.tsFrom.node], typeOfSymbol(last.targetSymbol))];
    forall i | 0 <= i < |before|
      ensures FirstSymbol(refs, before[i].target) == FirstSymbol(init, before[i].target)
    {
    }
    assert after[..|after| - 1] == before;
    forall x
      ensures FindGroup(after, x).Some? <==> AccessesOf(refs, x) != []
    {
    }
  }

  /** The grouping step for a later reference to an input. */
  lemma ExistingGroupMatches(refs: seq<InputReference>, typeOfSymbol: Symbol -> nat, before: seq<TsReferenceGroup>)
    requires |refs| > 0 && refs[|refs| - 1].TsInputReference?
    requires GroupsMatch(refs[..|refs| - 1], typeOfSymbol, before)
    requires FindGroup(before, refs[|refs| - 1].target).Some?
    ensures GroupsMatch(refs, typeOfSymbol, AddToGroups(before, refs[|refs| - 1], typeOfSymbol))
  {
    var last := refs[|refs| - 1];
    var after := AddToGroups(before, last, typeOfSymbol);
    ExistingGroupEntries(refs, typeOfSymbol, before);
    assert DistinctTargets(after);
    forall x
      ensures FindGroup(after, x).Some? <==> AccessesOf(refs, x) != []
    {
      FindGroupByTargets(after, before, x);
    }
  }

  /** Appending to an existing group keeps the targets and extends that group's accesses. */
  lemma ExistingGroupEntries(refs: seq<InputReference>, typeOfSymbol: Symbol -> nat, before: seq<TsReferenceGroup>)
    requires |refs| > 0 && refs[|refs| - 1].TsInputReference?
    requires GroupsMatch(refs[..|refs| - 1], typeOfSymbol, before)
    requires FindGroup(before, refs[|refs| - 1].target).Some?
    ensures var after := AddToGroups(before, refs[|refs| - 1], typeOfSymbol);
            && |after| == |before|
            && (forall i :: 0 <= i < |before| ==> after[i].target == before[i].target && after[i].targetType == before[i].targetType)
            && (forall i :: 0 <= i < |after| ==>
                  && after[i].accesses == AccessesOf(refs, after[i].target)
                  && FirstSymbol(refs, after[i].target) == FirstSymbol(refs[..|refs| - 1], after[i].target))
  {
    var init := refs[..|refs| - 1];
    var last := refs[|refs| - 1];
    var k := FindGroup(before, last.target).value;
    var after := AddToGroups(before, last, typeOfSymbol);
    assert after == before[k := before[k].(accesses := before[k].accesses + [last.tsFrom.node])];
    forall i | 0 <= i < |after|
      ensures after[i].accesses == AccessesOf(refs, after[i].target)
      ensures FirstSymbol(refs, after[i].target) == FirstSymbol(init, after[i].target)
    {
      if i == k {
        assert AccessesOf(refs, after[i].target) == AccessesOf(init, after[i].target) + [last.tsFrom.node];
      } else {
        assert AccessesOf(refs, after[i].target) == AccessesOf(init, after[i].target);
      }
    }
  }

  /** `FindGroup` looks at the targets only. */
  lemma {:induction false} FindGroupByTargets(a: seq<TsReferenceGroup>, b: seq<TsReferenceGroup>, x: InputId)
    requires |a| == |b| && forall i :: 0 <= i < |a| ==> a[i].target == b[i].target
    ensures FindGroup(a, x) == FindGroup(b, x)
    decreases |a|
  {
    if a != [] {
      FindGroupByTargets(a[..|a| - 1], b[..|b| - 1], x);
    }
  }

  /** The grouping loop, with the map's entries in insertion order. */
  method GroupTsReferences(refs: seq<InputReference>, typeOfSymbol: Symbol -> nat) returns (groups: seq<TsReferenceGroup>)
    ensures groups == Groups(refs, typeOfSymbol)
  {
    groups := [];
    for i := 0 to |refs|
      invariant groups == Groups(refs[..i], typeOfSymbol)
    {
      var reference := refs[i];
      assert refs[..i + 1][..i] == refs[..i];
      if !IsTsInputReference(reference) {
        continue;
      }
      ghost var before := groups;
      var k := FindGroup(groups, reference.target);
      if k.None? {
        groups := groups + [TsReferenceGroup(reference.target, [], typeOfSymbol(reference.targetSymbol))];
        k := Some(|groups| - 1);
      }
      groups := groups[k.value := groups[k.value].(accesses := groups[k.value].accesses + [reference.tsFrom.node])];
      if FindGroup(before, reference.target).None? {
        assert [] + [reference.tsFrom.node] == [reference.tsFrom.node];
        assert groups[..|before|] == before;
        assert groups == before + [TsReferenceGroup(reference.target, [reference.tsFrom.node], typeOfSymbol(reference.targetSymbol))];
      }
    }
    assert refs[..|refs|] == refs;
  }

  // ---------------------------------------------------------------- where a declaration goes

  predicate IsStatementContainer(k: SyntaxKind) {
    k.SourceFile? || k.Block?
  }

  /** `to` is reached from `from` by steps to parents that are not a block or source file. */
  ghost predicate InsideStatement(t: Tree, from: NodeId, to: NodeId)
    requires WellFormed(t) && from in t
    decreases from
  {
    from == to
    || (!t[from].kind.SourceFile? && !IsStatementContainer(t[ParentOf(t, from)].kind)
        && InsideStatement(t, ParentOf(t, from), to))
  }

  /** The statement holding `node`: the first node, from `node` upwards, whose parent is a
      block or a source file. */
  function EnclosingStatement(t: Tree, node: NodeId): (r: NodeId)
    requires WellFormed(t) && node in t && !t[node].kind.SourceFile?
    ensures r in t && !t[r].kind.SourceFile? && r <= node && t[r].file == t[node].file
    ensures IsStatementContainer(t[ParentOf(t, r)].kind)
    ensures InsideStatement(t, node, r)
    decreases node
  {
    assert NodeOk(t, node);
    var p := ParentOf(t, node);
    if IsStatementContainer(t[p].kind) then node else EnclosingStatement(t, p)
  }

  /** Only one node is reached from `node` through non-container parents and sits directly
      under a container: the statement is well defined. */
  lemma {:induction false} EnclosingStatementUnique(t: Tree, node: NodeId, r: NodeId)
    requires WellFormed(t) && node in t && !t[node].kind.SourceFile?
    requires InsideStatement(t, node, r) && r in t && !t[r].kind.SourceFile?
    requires IsStatementContainer(t[ParentOf(t, r)].kind)
    ensures r == EnclosingStatement(t, node)
    decreases node
  {
    if r != node {
      var p := ParentOf(t, node);
      assert !IsStatementContainer(t[p].kind) && InsideStatement(t, p, r);
      EnclosingStatementUnique(t, p, r);
    }
  }

  /** The `parentBlock`/`previous` loop. */
  method FindEnclosingStatement(t: Tree, node: NodeId) returns (previous: NodeId)
    requires WellFormed(t) && node in t && !t[node].kind.SourceFile?
    ensures previous == EnclosingStatement(t, node)
  {
    var parentBlock := ParentOf(t, node);
    previous := node;
    while !IsStatementContainer(t[parentBlock].kind)
      invariant previous in t && !t[previous].kind.SourceFile? && parentBlock == ParentOf(t, previous)
      invariant EnclosingStatement(t, previous) == EnclosingStatement(t, node)
      decreases previous
    {
      previous := parentBlock;
      parentBlock := ParentOf(t, parentBlock);
    }
  }

  // ---------------------------------------------------------------- columns

  /** The characters TypeScript breaks lines at. */
  predicate IsLineBreak(c: char) {
    c == '\n' || c == '\r' || c == '\U{2028}' || c == '\U{2029}'
  }

  /** Position `k` begins a line: the text's start, or right after a line break, a
      carriage return followed by a line feed counting as one break. */
  predicate IsLineStart(text: string, k: nat)
    requires k <= |text|
  {
    k == 0 || (IsLineBreak(text[k - 1]) && !(text[k - 1] == '\r' && k < |text| && text[k] == '\n'))
  }

  /** The start of the line holding `pos`. */
  function LineStart(text: string, pos: nat): (k: nat)
    requires pos <= |text|
    ensures k <= pos && IsLineStart(text, k)
    ensures forall j :: k < j <= pos ==> !IsLineStart(text, j)
  {
    if IsLineStart(text, pos) then pos else LineStart(text, pos - 1)
  }

  /** `getLineAndCharacterOfPosition(sf, pos).character` */
  function Column(text: string, pos: nat): nat
    requires pos <= |text|
  {
    pos - LineStart(text, pos)
  }

  /** The column counts the characters since the last line break, none of which is one. */
  lemma ColumnSpan(text: string, pos: nat)
    requires pos <= |text|
    ensures Column(text, pos) <= pos
    ensures forall j :: pos - Column(text, pos) <= j < pos ==> !IsLineBreak(text[j]) || (text[j] == '\r' && text[j + 1] == '\n')
  {
    var k := LineStart(text, pos);
    forall j | k <= j < pos
      ensures !IsLineBreak(text[j]) || (text[j] == '\r' && text[j + 1] == '\n')
    {
      assert !IsLineStart(text, j + 1);
    }
  }

  // ---------------------------------------------------------------- the rewrites

  const Unexpected: string := "Unexpected! Cannot be narrowed while also sharing!"

  /** `__tmp${n}` */
  function TempName(n: nat): string {
    "__tmp" + NatToString(n)
  }

  /** The declaration inserted before the statement of a shared access. */
  function TempDeclaration(t: Tree, id: nat, replaceNode: NodeId, column: nat): string
    requires WellFormed(t) && replaceNode in t
  {
    "const " + TempName(id) + " = " + GetText(t, replaceNode) + "();\n" + Spaces(column)
  }

  /** The replacements pass 3 adds for one flow-analysis entry: a narrowed access reads
      the shared temporary; a shared access declares it before its statement and reads
      it too; any other access is left alone. */
  function EntryEdits(t: Tree, entry: ControlFlowAnalysisNode): Result<seq<Edit>>
    requires WellFormed(t) && IsIdentifier(t, entry.originalNode)
  {
    var file := t[entry.originalNode].file;
    var replaceNode := TraverseAccess(t, entry.originalNode);
    var span := Replacement(t[replaceNode].start, t[replaceNode].end, TempName(entry.id));
    match entry.recommendedNode
    case SharedReference(index) =>
      if entry.willBeShared then Err(Unexpected)
      else Ok([Edit(file.fileName, Replacement(t[replaceNode].start, t[replaceNode].end, TempName(index)))])
    case PreserveNotNarrowed =>
      if entry.willBeShared then
        var at := t[EnclosingStatement(t, entry.originalNode)].start;
        Ok([Edit(file.fileName, Replacement(at, at, TempDeclaration(t, entry.id, replaceNode, Column(file.text, at)))),
            Edit(file.fileName, span)])
      else Ok([])
  }

  /** The first failure among `rs`, or all their edits in order: the loops stop at the
      first thrown error. */
  function ConcatResults(rs: seq<Result<seq<Edit>>>): (r: Result<seq<Edit>>)
    ensures r.Err? <==> exists i :: 0 <= i < |rs| && rs[i].Err?
    ensures r.Err? ==> exists i :: 0 <= i < |rs| && rs[i] == r
  {
    if rs == [] then Ok([])
    else
      var init := ConcatResults(rs[..|rs| - 1]);
      var last := rs[|rs| - 1];
      if init.Err? then init
      else if last.Err? then last
      else Ok(init.value + last.value)
  }

  lemma ConcatStep(rs: seq<Result<seq<Edit>>>, i: nat)
    requires i < |rs| && ConcatResults(rs[..i]).Ok?
    ensures rs[i].Err? ==> ConcatResults(rs[..i + 1]) == rs[i]
    ensures rs[i].Ok? ==> ConcatResults(rs[..i + 1]) == Ok(ConcatResults(rs[..i]).value + rs[i].value)
  {
    assert rs[..i + 1][..i] == rs[..i];
  }

  /** Once a prefix has failed, the whole list fails with the same error. */
  lemma {:induction false} ErrPersists(rs: seq<Result<seq<Edit>>>, i: nat)
    requires i <= |rs| && ConcatResults(rs[..i]).Err?
    ensures ConcatResults(rs) == ConcatResults(rs[..i])
    decreases |rs|
  {
    if i < |rs| {
      var init := rs[..|rs| - 1];
      assert init[..i] == rs[..i];
      ErrPersists(init, i);
    } else {
      assert rs[..i] == rs;
    }
  }

  /** What a loop over `rs` has added when it stops: all the edits when nothing fails;
      otherwise the edits of the results before the first failure, followed by
      `partial[k]`, what the failing turn `k` added before it threw. */
  function Attempted(rs: seq<Result<seq<Edit>>>, partial: seq<seq<Edit>>): (r: seq<Edit>)
    requires |partial| == |rs|
    ensures ConcatResults(rs).Ok? ==> r == ConcatResults(rs).value
  {
    if rs == [] then []
    else
      var n := |rs| - 1;
      var init := ConcatResults(rs[..n]);
      if init.Err? then Attempted(rs[..n], partial[..n])
      else if rs[n].Err? then init.value + partial[n]
      else init.value + rs[n].value
  }

  /** When turn `i` is the first to fail, the loop has added the edits of the turns before
      it and what turn `i` added before throwing. */
  lemma {:induction false} AttemptedAtFailure(rs: seq<Result<seq<Edit>>>, partial: seq<seq<Edit>>, i: nat)
    requires |partial| == |rs| && i < |rs|
    requires ConcatResults(rs[..i]).Ok? && rs[i].Err?
    ensures Attempted(rs, partial) == ConcatResults(rs[..i]).value + partial[i]
    decreases |rs|
  {
    var n := |rs| - 1;
    if i < n {
      assert rs[..n][..i] == rs[..i];
      assert rs[..n][..i + 1] == rs[..i + 1];
      ConcatStep(rs[..n], i);
      ErrPersists(rs[..n], i + 1);
      AttemptedAtFailure(rs[..n], partial[..n], i);
    } else {
      assert rs[..n] == rs[..i];
    }
  }

  predicate AllIdentifiers(t: Tree, nodes: seq<NodeId>) {
    forall i :: 0 <= i < |nodes| ==> IsIdentifier(t, nodes[i])
  }

  predicate EntriesAreIdentifiers(t: Tree, analysis: seq<ControlFlowAnalysisNode>) {
    forall i :: 0 <= i < |analysis| ==> IsIdentifier(t, analysis[i].originalNode)
  }

  function EntryResults(t: Tree, analysis: seq<ControlFlowAnalysisNode>): (rs: seq<Result<seq<Edit>>>)
    requires WellFormed(t) && EntriesAreIdentifiers(t, analysis)
    ensures |rs| == |analysis| && forall i :: 0 <= i < |rs| ==> rs[i] == EntryEdits(t, analysis[i])
  {
    seq(|analysis|, i requires 0 <= i < |analysis| => EntryEdits(t, analysis[i]))
  }

  /** The replacements for one input's accesses, or the error the analysis throws. */
  function GroupEdits(env: Pass3Env, t: Tree, group: TsReferenceGroup): Result<seq<Edit>>
    requires WellFormed(t) && FlowWellFormed(env.flow, t) && AllIdentifiers(t, group.accesses)
  {
    match Starts(env.flow, t, group.accesses)
    case None => Err(NoFlowContainer)
    case Some(starts) =>
      var analysis := Analysis(group.accesses, starts, group.targetType, env.typeAt);
      ConcatResults(EntryResults(t, analysis))
  }

  /** Every TypeScript reference is to an identifier, as `TsInputReference.from.node` is typed. */
  predicate TsReferencesAreIdentifiers(t: Tree, refs: seq<InputReference>) {
    forall i :: 0 <= i < |refs| && refs[i].TsInputReference? ==> IsIdentifier(t, refs[i].tsFrom.node)
  }

  lemma {:induction false} AccessesAreIdentifiers(t: Tree, refs: seq<InputReference>, target: InputId)
    requires TsReferencesAreIdentifiers(t, refs)
    ensures AllIdentifiers(t, AccessesOf(refs, target))
  {
    if refs != [] {
      AccessesAreIdentifiers(t, refs[..|refs| - 1], target);
    }
  }

  lemma GroupsAreIdentifiers(t: Tree, refs: seq<InputReference>, typeOfSymbol: Symbol -> nat)
    requires TsReferencesAreIdentifiers(t, refs)
    ensures forall i :: 0 <= i < |Groups(refs, typeOfSymbol)| ==> AllIdentifiers(t, Groups(refs, typeOfSymbol)[i].accesses)
  {
    GroupsPartitionTsReferences(refs, typeOfSymbol);
    forall i | 0 <= i < |Groups(refs, typeOfSymbol)|
      ensures AllIdentifiers(t, Groups(refs, typeOfSymbol)[i].accesses)
    {
      AccessesAreIdentifiers(t, refs, Groups(refs, typeOfSymbol)[i].target);
    }
  }

  function GroupResults(env: Pass3Env, t: Tree, groups: seq<TsReferenceGroup>): (rs: seq<Result<seq<Edit>>>)
    requires WellFormed(t) && FlowWellFormed(env.flow, t)
    requires forall i :: 0 <= i < |groups| ==> AllIdentifiers(t, groups[i].accesses)
    ensures |rs| == |groups| && forall i :: 0 <= i < |rs| ==> rs[i] == GroupEdits(env, t, groups[i])
  {
    seq(|groups|, i requires 0 <= i < |groups| => GroupEdits(env, t, groups[i]))
  }

  /** What one group's turn adds before it throws: nothing when a flow start is missing,
      else the edits of the entries before the one that fails. */
  function GroupAttempted(env: Pass3Env, t: Tree, group: TsReferenceGroup): seq<Edit>
    requires WellFormed(t) && FlowWellFormed(env.flow, t) && AllIdentifiers(t, group.accesses)
  {
    match Starts(env.flow, t, group.accesses)
    case None => []
    case Some(starts) =>
      var analysis := Analysis(group.accesses, starts, group.targetType, env.typeAt);
      Attempted(EntryResults(t, analysis), NoPartials(|analysis|))
  }

  /** An entry that throws has added nothing. */
  function NoPartials(n: nat): (ps: seq<seq<Edit>>)
    ensures |ps| == n && forall i :: 0 <= i < n ==> ps[i] == []
  {
    seq(n, i => [])
  }

  function GroupPartials(env: Pass3Env, t: Tree, groups: seq<TsReferenceGroup>): (ps: seq<seq<Edit>>)
    requires WellFormed(t) && FlowWellFormed(env.flow, t)
    requires forall i :: 0 <= i < |groups| ==> AllIdentifiers(t, groups[i].accesses)
    ensures |ps| == |groups| && forall i :: 0 <= i < |ps| ==> ps[i] == GroupAttempted(env, t, groups[i])
  {
    seq(|groups|, i requires 0 <= i < |groups| => GroupAttempted(env, t, groups[i]))
  }

  /** What pass 3 has added for `refs` when it stops, at an error or at the end. */
  function Pass3Attempted(env: Pass3Env, t: Tree, refs: seq<InputReference>): seq<Edit>
    requires WellFormed(t) && FlowWellFormed(env.flow, t) && TsReferencesAreIdentifiers(t, refs)
  {
    GroupsAreIdentifiers(t, refs, env.typeOfSymbol);
    var groups := Groups(refs, env.typeOfSymbol);
    Attempted(GroupResults(env, t, groups), GroupPartials(env, t, groups))
  }

  /** Everything pass 3 adds for `refs`, group by group in insertion order, or the error
      it throws. */
  function Pass3Edits(env: Pass3Env, t: Tree, refs: seq<InputReference>): Result<seq<Edit>>
    requires WellFormed(t) && FlowWellFormed(env.flow, t) && TsReferencesAreIdentifiers(t, refs)
  {
    GroupsAreIdentifiers(t, refs, env.typeOfSymbol);
    ConcatResults(GroupResults(env, t, Groups(refs, env.typeOfSymbol)))
  }

  // ---------------------------------------------------------------- the pass

  /** The body of the inner loop for one entry. */
  method MigrateEntry(t: Tree, entry: ControlFlowAnalysisNode, result: MigrationResult) returns (outcome: Result<()>)
    requires WellFormed(t) && IsIdentifier(t, entry.originalNode)
    modifies result`replacements
    ensures outcome.Err? <==> EntryEdits(t, entry).Err?
    ensures outcome.Err? ==> outcome.message == EntryEdits(t, entry).message
    ensures outcome.Ok? ==> result.replacements == WithEdits(old(result.replacements), EntryEdits(t, entry).value)
    ensures outcome.Err? ==> result.replacements == old(result.replacements)
  {
    var sf := t[entry.originalNode].file;
    if entry.recommendedNode.SharedReference? {
      if entry.willBeShared {
        return Err(Unexpected);
      }
      var replaceNode := TraverseAccess(t, entry.originalNode);
      var e := Edit(sf.fileName, Replacement(t[replaceNode].start, t[replaceNode].end, TempName(entry.recommendedNode.index)));
      result.AddReplacement(e.file, e.replacement);
      assert [e][..0] == [];
      return Ok(());
    }
    if entry.willBeShared {
      var previous := FindEnclosingStatement(t, entry.originalNode);
      var replaceNode := TraverseAccess(t, entry.originalNode);
      var at := t[previous].start;
      var leadingSpace := Column(sf.text, at);
      var declaration := Edit(sf.fileName, Replacement(at, at, TempDeclaration(t, entry.id, replaceNode, leadingSpace)));
      var read := Edit(sf.fileName, Replacement(t[replaceNode].start, t[replaceNode].end, TempName(entry.id)));
      result.AddReplacement(declaration.file, declaration.replacement);
      assert [declaration][..0] == [];
      assert result.replacements == WithEdits(old(result.replacements), [declaration]);
      result.AddReplacement(read.file, read.replacement);
      assert [declaration, read][..1] == [declaration];
      assert result.replacements == WithEdits(old(result.replacements), [declaration, read]);
      assert EntryEdits(t, entry).value == [declaration, read];
      return Ok(());
    }
    assert EntryEdits(t, entry) == Ok([]);
    return Ok(());
  }

  /** The inner loop over one analysis result. */
  method MigrateAnalysis(t: Tree, analysis: seq<ControlFlowAnalysisNode>, result: MigrationResult) returns (outcome: Result<()>)
    requires WellFormed(t) && EntriesAreIdentifiers(t, analysis)
    modifies result`replacements
    ensures outcome.Err? <==> ConcatResults(EntryResults(t, analysis)).Err?
    ensures outcome.Err? ==> outcome.message == ConcatResults(EntryResults(t, analysis)).message
    ensures outcome.Ok? ==> result.replacements == WithEdits(old(result.replacements), ConcatResults(EntryResults(t, analysis)).value)
    ensures outcome.Err? ==> result.replacements == WithEdits(old(result.replacements), Attempted(EntryResults(t, analysis), NoPartials(|analysis|)))
  {
    ghost var rs := EntryResults(t, analysis);
    for i := 0 to |analysis|
      invariant ConcatResults(rs[..i]).Ok?
      invariant result.replacements == WithEdits(old(result.replacements), ConcatResults(rs[..i]).value)
    {
      ghost var before := result.replacements;
      var o := MigrateEntry(t, analysis[i], result);
      ConcatStep(rs, i);
      if o.Err? {
        ErrPersists(rs, i + 1);
        AttemptedAtFailure(rs, NoPartials(|analysis|), i);
        assert ConcatResults(rs[..i]).value + [] == ConcatResults(rs[..i]).value;
        return Err(o.message);
      }
      WithEditsConcat(old(result.replacements), ConcatResults(rs[..i]).value, rs[i].value);
    }
    assert rs[..|analysis|] == rs;
    return Ok(());
  }

  /** One turn of the outer loop: analyse the group's accesses and migrate them. */
  method MigrateGroup(env: Pass3Env, t: Tree, group: TsReferenceGroup, result: MigrationResult) returns (outcome: Result<()>)
    requires WellFormed(t) && FlowWellFormed(env.flow, t) && AllIdentifiers(t, group.accesses)
    modifies result`replacements
    ensures outcome.Err? <==> GroupEdits(env, t, group).Err?
    ensures outcome.Err? ==> outcome.message == GroupEdits(env, t, group).message
    ensures outcome.Ok? ==> result.replacements == WithEdits(old(result.replacements), GroupEdits(env, t, group).value)
    ensures outcome.Err? ==> result.replacements == WithEdits(old(result.replacements), GroupAttempted(env, t, group))
  {
    var controlFlowResult := AnalyzeControlFlow(env.flow, t, group.targetType, group.accesses, env.typeAt);
    if controlFlowResult.Err? {
      return Err(controlFlowResult.message);
    }
    outcome := MigrateAnalysis(t, controlFlowResult.value, result);
  }

  /** `pass3__migrateTypeScriptReferences`. On an error the pass stops; what it added
      before is left in place. */
  method MigrateTypeScriptReferences(env: Pass3Env, t: Tree, result: MigrationResult) returns (outcome: Result<()>)
    requires WellFormed(t) && FlowWellFormed(env.flow, t) && TsReferencesAreIdentifiers(t, result.references)
    modifies result`replacements
    ensures outcome.Err? <==> Pass3Edits(env, t, result.references).Err?
    ensures outcome.Err? ==> outcome.message == Pass3Edits(env, t, result.references).message
    ensures outcome.Ok? ==> result.replacements == WithEdits(old(result.replacements), Pass3Edits(env, t, result.references).value)
    ensures outcome.Err? ==> result.replacements == WithEdits(old(result.replacements), Pass3Attempted(env, t, result.references))
  {
    var tsReferences := GroupTsReferences(result.references, env.typeOfSymbol);
    GroupsAreIdentifiers(t, result.references, env.typeOfSymbol);
    ghost var rs := GroupResults(env, t, tsReferences);
    ghost var partials := GroupPartials(env, t, tsReferences);
    for i := 0 to |tsReferences|
      invariant ConcatResults(rs[..i]).Ok?
      invariant result.replacements == WithEdits(old(result.replacements), ConcatResults(rs[..i]).value)
    {
      var o := MigrateGroup(env, t, tsReferences[i], result);
      ConcatStep(rs, i);
      if o.Err? {
        ErrPersists(rs, i + 1);
        AttemptedAtFailure(rs, partials, i);
        WithEditsConcat(old(result.replacements), ConcatResults(rs[..i]).value, partials[i]);
        return Err(o.message);
      }
      WithEditsConcat(old(result.replacements), ConcatResults(rs[..i]).value, rs[i].value);
    }
    assert rs[..|tsReferences|] == rs;
    return Ok(());
  }

  // ---------------------------------------------------------------- properties

  /** The analysis never marks an access both narrowed and shared, so the "Unexpected!"
      error cannot be thrown: a group fails only when one of its accesses has no flow start. */
  lemma AnalysisEditsSucceed(t: Tree, entries: seq<NodeId>, starts: seq<nat>, targetType: nat, typeAt: NodeId -> nat)
    requires WellFormed(t) && AllIdentifiers(t, entries) && |starts| == |entries|
    ensures EntriesAreIdentifiers(t, Analysis(entries, starts, targetType, typeAt))
    ensures ConcatResults(EntryResults(t, Analysis(entries, starts, targetType, typeAt))).Ok?
  {
    var analysis := Analysis(entries, starts, targetType, typeAt);
    forall i | 0 <= i < |analysis|
      ensures EntryEdits(t, analysis[i]).Ok?
    {
      if analysis[i].willBeShared {
        SharedIsNeverNarrowed(entries, starts, targetType, typeAt, i);
      }
    }
  }

  lemma GroupFailsOnlyWithoutFlowStart(env: Pass3Env, t: Tree, group: TsReferenceGroup)
    requires WellFormed(t) && FlowWellFormed(env.flow, t) && AllIdentifiers(t, group.accesses)
    ensures GroupEdits(env, t, group).Err? <==> exists i :: 0 <= i < |group.accesses| && StartOf(env.flow, t, group.accesses[i]).None?
    ensures GroupEdits(env, t, group).Err? ==> GroupEdits(env, t, group).message == NoFlowContainer
  {
    var starts := Starts(env.flow, t, group.accesses);
    if starts.Some? {
      AnalysisEditsSucceed(t, group.accesses, starts.value, group.targetType, env.typeAt);
    }
  }

  /** The nodes in an input's group are exactly the nodes of the TypeScript references to it. */
  lemma {:induction false} AccessesOfMembers(refs: seq<InputReference>, x: InputId, a: NodeId)
    ensures a in AccessesOf(refs, x) <==>
              exists k :: 0 <= k < |refs| && refs[k].TsInputReference? && refs[k].target == x && refs[k].tsFrom.node == a
  {
    if refs != [] {
      var init := refs[..|refs| - 1];
      AccessesOfMembers(init, x, a);
      if exists k :: 0 <= k < |refs| && refs[k].TsInputReference? && refs[k].target == x && refs[k].tsFrom.node == a {
        var k :| 0 <= k < |refs| && refs[k].TsInputReference? && refs[k].target == x && refs[k].tsFrom.node == a;
        if k < |init| {
          assert init[k] == refs[k];
        }
      }
    }
  }

  predicate WithoutFlowStart(env: Pass3Env, t: Tree, refs: seq<InputReference>, k: nat)
    requires FlowWellFormed(env.flow, t) && TsReferencesAreIdentifiers(t, refs)
  {
    k < |refs| && refs[k].TsInputReference? && StartOf(env.flow, t, refs[k].tsFrom.node).None?
  }

  /** Pass 3 throws exactly when some TypeScript reference has no reachable flow start, and
      then always with the flow analysis's assertion error. */
  lemma Pass3FailsOnlyWithoutFlowStart(env: Pass3Env, t: Tree, refs: seq<InputReference>)
    requires WellFormed(t) && FlowWellFormed(env.flow, t) && TsReferencesAreIdentifiers(t, refs)
    ensures Pass3Edits(env, t, refs).Err? <==> exists k :: WithoutFlowStart(env, t, refs, k)
    ensures Pass3Edits(env, t, refs).Err? ==> Pass3Edits(env, t, refs).message == NoFlowContainer
  {
    if exists k :: WithoutFlowStart(env, t, refs, k) {
      var k :| WithoutFlowStart(env, t, refs, k);
      ReferenceWithoutStartFails(env, t, refs, k);
    }
    if Pass3Edits(env, t, refs).Err? {
      FailureHasReferenceWithoutStart(env, t, refs);
    }
  }

  lemma ReferenceWithoutStartFails(env: Pass3Env, t: Tree, refs: seq<InputReference>, k: nat)
    requires WellFormed(t) && FlowWellFormed(env.flow, t) && TsReferencesAreIdentifiers(t, refs)
    requires WithoutFlowStart(env, t, refs, k)
    ensures Pass3Edits(env, t, refs).Err?
  {
    var groups := Groups(refs, env.typeOfSymbol);
    GroupsPartitionTsReferences(refs, env.typeOfSymbol);
    GroupsAreIdentifiers(t, refs, env.typeOfSymbol);
    var rs := GroupResults(env, t, groups);
    var a := refs[k].tsFrom.node;
    AccessesOfMembers(refs, refs[k].target, a);
    var g := FindGroup(groups, refs[k].target).value;
    var j :| 0 <= j < |groups[g].accesses| && groups[g].accesses[j] == a;
    GroupFailsOnlyWithoutFlowStart(env, t, groups[g]);
    assert rs[g].Err?;
  }

  lemma FailureHasReferenceWithoutStart(env: Pass3Env, t: Tree, refs: seq<InputReference>)
    requires WellFormed(t) && FlowWellFormed(env.flow, t) && TsReferencesAreIdentifiers(t, refs)
    requires Pass3Edits(env, t, refs).Err?
    ensures exists k :: WithoutFlowStart(env, t, refs, k)
    ensures Pass3Edits(env, t, refs).message == NoFlowContainer
  {
    var groups := Groups(refs, env.typeOfSymbol);
    GroupsPartitionTsReferences(refs, env.typeOfSymbol);
    GroupsAreIdentifiers(t, refs, env.typeOfSymbol);
    var rs := GroupResults(env, t, groups);
    var g :| 0 <= g < |rs| && rs[g] == Pass3Edits(env, t, refs);
    GroupFailsOnlyWithoutFlowStart(env, t, groups[g]);
    var j :| 0 <= j < |groups[g].accesses| && StartOf(env.flow, t, groups[g].accesses[j]).None?;
    AccessesOfMembers(refs, groups[g].target, groups[g].accesses[j]);
    var k :| 0 <= k < |refs| && refs[k].TsInputReference? && refs[k].target == groups[g].target
             && refs[k].tsFrom.node == groups[g].accesses[j];
    assert WithoutFlowStart(env, t, refs, k);
  }

  /** A narrowed access reads the temporary of the earlier access it was narrowed
      against, and that access declares the temporary and reads it in its own place. */
  lemma NarrowedReadsDeclaredTemp(t: Tree, entries: seq<NodeId>, starts: seq<nat>, targetType: nat,
                                  typeAt: NodeId -> nat, i: nat)
    requires WellFormed(t) && AllIdentifiers(t, entries) && |starts| == |entries| && i < |entries|
    requires Analysis(entries, starts, targetType, typeAt)[i].recommendedNode.SharedReference?
    ensures var analysis := Analysis(entries, starts, targetType, typeAt);
            var j := analysis[i].recommendedNode.index;
            var access := TraverseAccess(t, entries[i]);
            var shared := TraverseAccess(t, entries[j]);
            && j < i
            && EntryEdits(t, analysis[i])
               == Ok([Edit(t[entries[i]].file.fileName, Replacement(t[access].start, t[access].end, TempName(j)))])
            && EntryEdits(t, analysis[j]).Ok? && |EntryEdits(t, analysis[j]).value| == 2
            && StartsWith(EntryEdits(t, analysis[j]).value[0].replacement.toInsert, "const " + TempName(j) + " = ")
            && EntryEdits(t, analysis[j]).value[1]
               == Edit(t[entries[j]].file.fileName, Replacement(t[shared].start, t[shared].end, TempName(j)))
  {
    var analysis := Analysis(entries, starts, targetType, typeAt);
    NarrowedPointsAtSharedAccess(entries, starts, targetType, typeAt, i);
    var j := analysis[i].recommendedNode.index;
    var s := EntryEdits(t, analysis[j]).value[0].replacement.toInsert;
    var prefix := "const " + TempName(j) + " = ";
    assert s[..|prefix|] == prefix;
  }

  /** An access gets no pass-3 replacement exactly when no earlier access of its flow
      container exists with a type that differs from the input's, and no later access of
      its container is narrowed against it. */
  lemma UntouchedIff(t: Tree, entries: seq<NodeId>, starts: seq<nat>, targetType: nat, typeAt: NodeId -> nat, i: nat)
    requires WellFormed(t) && AllIdentifiers(t, entries) && |starts| == |entries| && i < |entries|
    ensures EntryEdits(t, Analysis(entries, starts, targetType, typeAt)[i]) == Ok([]) <==>
              && !((exists j :: 0 <= j < i && starts[j] == starts[i]) && typeAt(entries[i]) != targetType)
              && !(exists k :: i < k < |entries| && FirstInContainer(starts, k) == i && typeAt(entries[k]) != targetType)
  {
    NarrowedIff(entries, starts, targetType, typeAt, i);
    var analysis := Analysis(entries, starts, targetType, typeAt);
    if analysis[i].willBeShared {
      SharedIsNeverNarrowed(entries, starts, targetType, typeAt, i);
    }
  }
}
