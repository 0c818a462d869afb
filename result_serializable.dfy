/** `serializeExportNodeId` and `serializeNode` (result_serializable.ts): how a node is
    written out, by its span when it is in a source file and by an export access id
    (its ancestors' names joined by `@`) when it is in a declaration file. */
module SerializableResults {
  import opened Wrappers
  import opened Ast
  import opened Strings
  import MigrationResults

  datatype SerializableNode =
    | External(workspaceRelativeFilename: string, exportAccessId: string)
    | Source(workspaceRelativeFilename: string, fromTemplate: bool, start: nat, end: nat)

  /** The numeric value of `node.kind` in TypeScript's `SyntaxKind` enum. */
  type KindCode = SyntaxKind -> nat

  predicate AllInTree(t: Tree, nodes: seq<NodeId>) {
    forall i :: 0 <= i < |nodes| ==> nodes[i] in t
  }

  /** The node and its ancestors below the source file, outermost first. */
  function Chain(t: Tree, node: NodeId): (c: seq<NodeId>)
    requires WellFormed(t) && node in t && !t[node].kind.SourceFile?
    ensures |c| > 0 && c[|c| - 1] == node && AllInTree(t, c)
    decreases node
  {
    var p := ParentOf(t, node);
    if t[p].kind.SourceFile? then [node] else Chain(t, p) + [node]
  }

  /** The chain starts right below the source file, holds no source file, and each node in
      it is the parent of the next. */
  lemma {:induction false} ChainShape(t: Tree, node: NodeId)
    requires WellFormed(t) && node in t && !t[node].kind.SourceFile?
    ensures var c := Chain(t, node);
            && (forall i :: 0 <= i < |c| ==> !t[c[i]].kind.SourceFile?)
            && t[ParentOf(t, c[0])].kind.SourceFile?
            && (forall i :: 0 < i < |c| ==> ParentOf(t, c[i]) == c[i - 1])
    decreases node
  {
    var p := ParentOf(t, node);
    if !t[p].kind.SourceFile? {
      ChainShape(t, p);
      assert NodeOk(t, p);
      var c := Chain(t, node);
      assert c == Chain(t, p) + [node];
      assert c[..|c| - 1] == Chain(t, p);
    }
  }

  /** A named class, interface, function-like, variable or property contributes its name;
      any other node its numeric kind. */
  function Segment(t: Tree, node: NodeId, kindCode: KindCode): string
    requires node in t
  {
    var k := t[node].kind;
    if (k.ClassDeclaration? || k.InterfaceDeclaration? || k.FunctionLike? || k.VariableDeclaration? || k.PropertyDeclaration?)
       && IdentifierName(t, node).Some?
    then IdentifierName(t, node).value
    else NatToString(kindCode(k))
  }

  function Segments(t: Tree, nodes: seq<NodeId>, kindCode: KindCode): (r: seq<string>)
    requires AllInTree(t, nodes)
    ensures |r| == |nodes| && forall i :: 0 <= i < |nodes| ==> r[i] == Segment(t, nodes[i], kindCode)
  {
    if nodes == [] then [] else [Segment(t, nodes[0], kindCode)] + Segments(t, nodes[1..], kindCode)
  }

  /** One turn of the do-while loop: the current segment goes in front, separated by `@`
      from what is already there. */
  function Prepend(segment: string, id: string): string {
    segment + (if id != "" then "@" + id else "")
  }

  /** The id built from `segments`, outermost first. */
  function ExportIdOf(segments: seq<string>): string {
    if segments == [] then "" else Prepend(segments[0], ExportIdOf(segments[1..]))
  }

  function ExportId(t: Tree, node: NodeId, kindCode: KindCode): string
    requires WellFormed(t) && node in t && !t[node].kind.SourceFile?
  {
    ExportIdOf(Segments(t, Chain(t, node), kindCode))
  }

  /** Putting a node in front of the processed ones puts its segment in front of the id. */
  lemma PrependSegment(t: Tree, current: NodeId, below: seq<NodeId>, kindCode: KindCode)
    requires current in t && AllInTree(t, below)
    ensures AllInTree(t, [current] + below)
    ensures ExportIdOf(Segments(t, [current] + below, kindCode))
            == Prepend(Segment(t, current, kindCode), ExportIdOf(Segments(t, below, kindCode)))
  {
    assert ([current] + below)[1..] == below;
  }

  /** Moving one node up the chain. */
  lemma ChainStep(t: Tree, node: NodeId, current: NodeId, below: seq<NodeId>)
    requires WellFormed(t) && node in t && !t[node].kind.SourceFile? && current in t && !t[current].kind.SourceFile?
    requires Chain(t, node) == Chain(t, current) + below
    ensures t[ParentOf(t, current)].kind.SourceFile? ==> Chain(t, node) == [current] + below
    ensures !t[ParentOf(t, current)].kind.SourceFile? ==> Chain(t, node) == Chain(t, ParentOf(t, current)) + ([current] + below)
  {
    var p := ParentOf(t, current);
    if !t[p].kind.SourceFile? {
      assert Chain(t, current) == Chain(t, p) + [current];
      MigrationResults.ConcatAssociative(Chain(t, p), [current], below);
    } else {
      assert Chain(t, current) == [current];
    }
  }

  /** The nodes from `current` down to `node` have been processed into `id`. */
  ghost predicate Processed(t: Tree, node: NodeId, kindCode: KindCode, current: NodeId, below: seq<NodeId>, id: string)
    requires WellFormed(t) && node in t && !t[node].kind.SourceFile?
  {
    && current in t && !t[current].kind.SourceFile? && AllInTree(t, below)
    && Chain(t, node) == Chain(t, current) + below
    && id == ExportIdOf(Segments(t, below, kindCode))
  }

  /** The `TypeError` of reading `kind` from the missing parent of a source file. */
  const MissingParentMessage := "Cannot read properties of undefined (reading 'kind')"

  /** `serializeExportNodeId`. The loop stops at the first source file above the node. On a
      source file itself, the first turn moves to its missing parent and the loop test
      `ts.isSourceFile(current)` throws. */
  method SerializeExportNodeId(t: Tree, node: NodeId, kindCode: KindCode) returns (r: Result<string>)
    requires WellFormed(t) && node in t
    ensures r.Err? <==> t[node].kind.SourceFile?
    ensures r.Err? ==> r.message == MissingParentMessage
    ensures r.Ok? ==> r.value == ExportId(t, node, kindCode)
  {
    if t[node].kind.SourceFile? {
      return Err(MissingParentMessage);
    }
    var id := "";
    var current := node;
    ghost var below: seq<NodeId> := [];
    while true
      invariant Processed(t, node, kindCode, current, below, id)
      decreases current
    {
      var currentId := Segment(t, current, kindCode);
      PrependSegment(t, current, below, kindCode);
      id := Prepend(currentId, id);
      below := [current] + below;
      var parent := ParentOf(t, current);
      ChainStep(t, node, current, below[1..]);
      if t[parent].kind.SourceFile? {
        return Ok(id);
      }
      current := parent;
    }
  }

  /** `serializeNode`: nodes of declaration files by export id, others by span. The
      export id of a declaration file's source-file node throws. */
  function SerializeNode(t: Tree, node: NodeId, kindCode: KindCode): (r: Result<SerializableNode>)
    requires WellFormed(t) && node in t
    ensures r.Err? <==> t[node].file.isDeclarationFile && t[node].kind.SourceFile?
    ensures r.Err? ==> r.message == MissingParentMessage
    ensures r.Ok? ==> r.value.workspaceRelativeFilename == t[node].file.fileName
    ensures r.Ok? ==> (r.value.External? <==> t[node].file.isDeclarationFile)
    ensures r.Ok? && r.value.External? ==> r.value.exportAccessId == ExportId(t, node, kindCode)
    ensures r.Ok? && r.value.Source? ==>
              r.value.start == t[node].start && r.value.end == t[node].end && !r.value.fromTemplate
  {
    if t[node].file.isDeclarationFile then
      if t[node].kind.SourceFile? then Err(MissingParentMessage)
      else Ok(External(t[node].file.fileName, ExportId(t, node, kindCode)))
    else Ok(Source(t[node].file.fileName, false, t[node].start, t[node].end))
  }

  // ---------------------------------------------------------------- reading an id back

  /** The position of the first `@`. */
  function FirstAt(s: string): (i: nat)
    requires '@' in s
    ensures i < |s| && s[i] == '@' && '@' !in s[..i]
  {
    if s[0] == '@' then 0 else 1 + FirstAt(s[1..])
  }

  /** `s.split('@')` */
  function Split(s: string): seq<string>
    decreases |s|
  {
    if '@' !in s then [s] else [s[..FirstAt(s)]] + Split(s[FirstAt(s) + 1..])
  }

  /** Segments that can be read back: at least one, none empty and none holding `@`, as
      is the case for identifier names and kind numbers. */
  predicate SegmentsSplittable(segments: seq<string>) {
    |segments| > 0 && forall i :: 0 <= i < |segments| ==> segments[i] != "" && '@' !in segments[i]
  }

  /** Splitting the id at `@` gives back its segments: the id names the node's ancestors
      below the source file, outermost first, and ends with the node itself. */
  lemma {:induction false} SplitExportId(segments: seq<string>)
    requires SegmentsSplittable(segments)
    ensures Split(ExportIdOf(segments)) == segments
    decreases |segments|
  {
    var head := segments[0];
    var rest := segments[1..];
    if rest == [] {
      assert ExportIdOf(rest) == "";
      assert ExportIdOf(segments) == head;
    } else {
      SplitExportId(rest);
      var tail := ExportIdOf(rest);
      assert tail != "" by {
        assert tail[..|rest[0]|] == rest[0] by {
          assert tail == Prepend(rest[0], ExportIdOf(rest[1..]));
        }
      }
      var s := ExportIdOf(segments);
      assert s == head + "@" + tail;
      assert s[|head|] == '@' && s[..|head|] == head;
      assert FirstAt(s) == |head|;
      assert s[|head| + 1..] == tail;
    }
  }

  /** The export id of a node reads back as the segments of its ancestors below the
      source file, outermost first, ending with the node's own, whenever those segments
      are non-empty and free of `@` (as identifier names and kind numbers are). */
  lemma ExportIdReadsBack(t: Tree, node: NodeId, kindCode: KindCode)
    requires WellFormed(t) && node in t && !t[node].kind.SourceFile?
    requires SegmentsSplittable(Segments(t, Chain(t, node), kindCode))
    ensures var segments := Split(ExportId(t, node, kindCode));
            && segments == Segments(t, Chain(t, node), kindCode)
            && segments[|segments| - 1] == Segment(t, node, kindCode)
  {
    SplitExportId(Segments(t, Chain(t, node), kindCode));
  }
}
