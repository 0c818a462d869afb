/** `analyzeControlFlow` (flow_analysis/index.ts): for the accesses of one input, decide
    which may share a single read of the input because they lie in the same flow
    container, and which of those were narrowed by the type checker. */
module ControlFlowAnalysis {
  import opened Wrappers
  import opened Ast
  import opened FlowNodes

  /** `ControlFlowNodeIndex | 'preserve-not-narrowed'` */
  datatype Recommendation = PreserveNotNarrowed | SharedReference(index: nat)

  datatype ControlFlowAnalysisNode = ControlFlowAnalysisNode(
    id: nat,
    originalNode: NodeId,
    recommendedNode: Recommendation,
    willBeShared: bool)

  const NoFlowContainer: string := "Assertion Error: No flow container"

  /** The flow start an access resolves to, if any. */
  function StartOf(g: FlowGraph, t: Tree, entry: NodeId): Option<nat>
    requires FlowWellFormed(g, t) && entry in t
  {
    match GetFlowNode(t, entry)
    case None => None
    case Some(f) => Walk(g, t, t[entry].kind, f, 0)
  }

  predicate AllIn(t: Tree, entries: seq<NodeId>) {
    forall i :: 0 <= i < |entries| ==> entries[i] in t
  }

  /** The flow starts of all accesses, or nothing when one of them has none. */
  function Starts(g: FlowGraph, t: Tree, entries: seq<NodeId>): (r: Option<seq<nat>>)
    requires FlowWellFormed(g, t) && AllIn(t, entries)
    ensures r.Some? ==> |r.value| == |entries| && forall i :: 0 <= i < |entries| ==> Some(r.value[i]) == StartOf(g, t, entries[i])
    ensures r.None? <==> exists i :: 0 <= i < |entries| && StartOf(g, t, entries[i]).None?
  {
    if entries == [] then Some([])
    else
      var init := Starts(g, t, entries[..|entries| - 1]);
      var last := StartOf(g, t, entries[|entries| - 1]);
      if init.None? || last.None? then None else Some(init.value + [last.value])
  }

  /** The first position of a value in a sequence. */
  function IndexOf(s: seq<nat>, x: nat): (i: nat)
    requires x in s
    ensures i < |s| && s[i] == x && forall j :: 0 <= j < i ==> s[j] != x
  {
    if s[0] == x then 0 else 1 + IndexOf(s[1..], x)
  }

  lemma {:induction false} IndexOfAppend(s: seq<nat>, y: nat, x: nat)
    requires x in s + [y]
    ensures x in s ==> IndexOf(s + [y], x) == IndexOf(s, x)
    ensures x !in s ==> IndexOf(s + [y], x) == |s|
  {
    var i := IndexOf(s + [y], x);
    if x in s {
      var k := IndexOf(s, x);
      assert (s + [y])[k] == x;
      assert i <= k;
      assert s[i] == x;
    }
  }

  /** The first access that shares access `i`'s flow start: the one whose id names the container. */
  function FirstInContainer(starts: seq<nat>, i: nat): (first: nat)
    requires i < |starts|
    ensures first <= i && starts[first] == starts[i]
  {
    IndexOf(starts, starts[i])
  }

  predicate Narrowed(entry: NodeId, targetType: nat, typeAt: NodeId -> nat) {
    typeAt(entry) != targetType
  }

  /** The result for access `i` once accesses `0 .. n-1` have been analysed: an access is
      narrowed when it is not the first of its container and its type differs from the
      input's; the first access of a container will be shared once a later access of the
      container is narrowed. */
  function NodeUpTo(entries: seq<NodeId>, starts: seq<nat>, targetType: nat, typeAt: NodeId -> nat, i: nat, n: nat)
    : ControlFlowAnalysisNode
    requires i < n <= |starts| && n <= |entries|
  {
    var first := FirstInContainer(starts, i);
    ControlFlowAnalysisNode(
      i,
      entries[i],
      if first < i && Narrowed(entries[i], targetType, typeAt) then SharedReference(first) else PreserveNotNarrowed,
      exists k :: i < k < n && FirstInContainer(starts, k) == i && Narrowed(entries[k], targetType, typeAt))
  }

  /** The analysis of all accesses, given their flow starts. */
  function Analysis(entries: seq<NodeId>, starts: seq<nat>, targetType: nat, typeAt: NodeId -> nat)
    : (r: seq<ControlFlowAnalysisNode>)
    requires |starts| == |entries|
    ensures |r| == |entries|
    ensures forall i :: 0 <= i < |r| ==> r[i] == NodeUpTo(entries, starts, targetType, typeAt, i, |entries|)
  {
    seq(|entries|, i requires 0 <= i < |entries| => NodeUpTo(entries, starts, targetType, typeAt, i, |entries|))
  }

  /** Analysing one more access: earlier results keep their recommendation, and the first
      access of the new access's container becomes shared when the new one is narrowed. */
  lemma NodeUpToStep(entries: seq<NodeId>, starts: seq<nat>, s: nat, targetType: nat, typeAt: NodeId -> nat, j: nat)
    requires |starts| < |entries| && j < |starts|
    ensures var n := |starts|;
            var starts' := starts + [s];
            NodeUpTo(entries, starts', targetType, typeAt, j, n + 1)
            == if FirstInContainer(starts', n) == j && Narrowed(entries[n], targetType, typeAt)
               then NodeUpTo(entries, starts, targetType, typeAt, j, n).(willBeShared := true)
               else NodeUpTo(entries, starts, targetType, typeAt, j, n)
  {
    var n := |starts|;
    var starts' := starts + [s];
    IndexOfAppend(starts, s, starts[j]);
    assert starts'[j] == starts[j];
    assert FirstInContainer(starts', j) == FirstInContainer(starts, j);
    forall k | j < k < n
      ensures FirstInContainer(starts', k) == FirstInContainer(starts, k)
    {
      assert starts'[k] == starts[k];
      IndexOfAppend(starts, s, starts[k]);
    }
  }

  /** The new access's own result: shared with its container's first access when narrowed. */
  lemma NodeUpToNew(entries: seq<NodeId>, starts: seq<nat>, s: nat, targetType: nat, typeAt: NodeId -> nat)
    requires |starts| < |entries|
    ensures var n := |starts|;
            var first := if s in starts then IndexOf(starts, s) else n;
            NodeUpTo(entries, starts + [s], targetType, typeAt, n, n + 1)
            == ControlFlowAnalysisNode(n, entries[n],
                 if first < n && Narrowed(entries[n], targetType, typeAt) then SharedReference(first) else PreserveNotNarrowed,
                 false)
  {
    IndexOfAppend(starts, s, s);
  }

  /** Each flow start seen so far maps to the id of its first access. */
  ghost predicate ContainersState(starts: seq<nat>, flowContainers: map<nat, nat>) {
    && (forall s :: s in flowContainers <==> s in starts)
    && (forall s :: s in flowContainers ==> s in starts && flowContainers[s] == IndexOf(starts, s))
  }

  /** Each access seen so far has its result as analysed up to now. */
  ghost predicate ResultsState(entries: seq<NodeId>, starts: seq<nat>, result: seq<ControlFlowAnalysisNode>,
                               targetType: nat, typeAt: NodeId -> nat)
  {
    && |starts| <= |entries|
    && |result| == |starts|
    && forall j :: 0 <= j < |starts| ==> result[j] == NodeUpTo(entries, starts, targetType, typeAt, j, |starts|)
  }

  /** The loop's state after the accesses whose flow starts are `starts`. */
  ghost predicate AnalysisState(entries: seq<NodeId>, starts: seq<nat>, flowContainers: map<nat, nat>,
                                result: seq<ControlFlowAnalysisNode>, targetType: nat, typeAt: NodeId -> nat)
  {
    ContainersState(starts, flowContainers) && ResultsState(entries, starts, result, targetType, typeAt)
  }

  lemma ContainersStep(starts: seq<nat>, flowContainers: map<nat, nat>, s: nat)
    requires ContainersState(starts, flowContainers)
    ensures ContainersState(starts + [s], if s in flowContainers then flowContainers else flowContainers[s := |starts|])
  {
    var fc := if s in flowContainers then flowContainers else flowContainers[s := |starts|];
    forall x | x in fc
      ensures x in starts + [s] && fc[x] == IndexOf(starts + [s], x)
    {
      IndexOfAppend(starts, s, x);
    }
  }

  /** The results after one more access whose container's first access is `first`
      (itself when the container is new). */
  function NextResults(result: seq<ControlFlowAnalysisNode>, entry: NodeId, first: nat, targetType: nat,
                       typeAt: NodeId -> nat): seq<ControlFlowAnalysisNode>
    requires first <= |result|
  {
    var idx := |result|;
    var isNarrowed := first < idx && typeAt(entry) != targetType;
    var marked := if isNarrowed then result[first := result[first].(willBeShared := true)] else result;
    marked + [ControlFlowAnalysisNode(idx, entry, if isNarrowed then SharedReference(first) else PreserveNotNarrowed, false)]
  }

  lemma ResultsStep(entries: seq<NodeId>, starts: seq<nat>, result: seq<ControlFlowAnalysisNode>, s: nat,
                    targetType: nat, typeAt: NodeId -> nat)
    requires |starts| < |entries| && ResultsState(entries, starts, result, targetType, typeAt)
    ensures var first := if s in starts then IndexOf(starts, s) else |starts|;
            ResultsState(entries, starts + [s], NextResults(result, entries[|starts|], first, targetType, typeAt),
                         targetType, typeAt)
  {
    var idx := |starts|;
    var first := if s in starts then IndexOf(starts, s) else idx;
    var next := NextResults(result, entries[idx], first, targetType, typeAt);
    IndexOfAppend(starts, s, s);
    assert FirstInContainer(starts + [s], idx) == first;
    forall j | 0 <= j < idx
      ensures next[j] == NodeUpTo(entries, starts + [s], targetType, typeAt, j, idx + 1)
    {
      NodeUpToStep(entries, starts, s, targetType, typeAt, j);
    }
    NodeUpToNew(entries, starts, s, targetType, typeAt);
  }

  /** The loop body once the access's flow start `s` is known: join or open its container,
      mark the container's first access shared when this one is narrowed, and add its result. */
  method AddEntry(entries: seq<NodeId>, ghost starts: seq<nat>, s: nat, flowContainers: map<nat, nat>,
                  result: seq<ControlFlowAnalysisNode>, targetType: nat, typeAt: NodeId -> nat)
    returns (flowContainers': map<nat, nat>, result': seq<ControlFlowAnalysisNode>)
    requires |starts| < |entries|
    requires AnalysisState(entries, starts, flowContainers, result, targetType, typeAt)
    ensures AnalysisState(entries, starts + [s], flowContainers', result', targetType, typeAt)
  {
    var idx := |result|;
    var entry := entries[idx];
    var shareReferenceId: nat;
    var existing := s in flowContainers;
    flowContainers' := flowContainers;
    if existing {
      shareReferenceId := flowContainers[s];
    } else {
      shareReferenceId := idx;
      flowContainers' := flowContainers[s := idx];
    }
    var isNarrowed := existing && typeAt(entry) != targetType;
    result' := result;
    if isNarrowed {
      result' := result'[shareReferenceId := result'[shareReferenceId].(willBeShared := true)];
    }
    result' := result' + [ControlFlowAnalysisNode(idx, entry,
                                                 if isNarrowed then SharedReference(shareReferenceId) else PreserveNotNarrowed,
                                                 false)];
    ContainersStep(starts, flowContainers, s);
    ResultsStep(entries, starts, result, s, targetType, typeAt);
    assert result' == NextResults(result, entry, if s in starts then IndexOf(starts, s) else idx, targetType, typeAt);
  }

  /** `analyzeControlFlow`. `typeAt` is `typeChecker.getTypeAtLocation`, types being
      compared by identity; it is consulted only for accesses in an existing container. */
  method AnalyzeControlFlow(g: FlowGraph, t: Tree, targetType: nat, entries: seq<NodeId>, typeAt: NodeId -> nat)
    returns (r: Result<seq<ControlFlowAnalysisNode>>)
    requires FlowWellFormed(g, t) && AllIn(t, entries)
    ensures r.Err? <==> Starts(g, t, entries).None?
    ensures r.Err? ==> r.message == NoFlowContainer
    ensures r.Ok? ==> r.value == Analysis(entries, Starts(g, t, entries).value, targetType, typeAt)
  {
    var flowContainers: map<nat, nat> := map[];
    var result: seq<ControlFlowAnalysisNode> := [];
    ghost var starts: seq<nat> := [];
    for idx := 0 to |entries|
      invariant Starts(g, t, entries[..idx]) == Some(starts)
      invariant AnalysisState(entries, starts, flowContainers, result, targetType, typeAt)
    {
      var entry := entries[idx];
      assert entries[..idx + 1][..idx] == entries[..idx];
      var flowNode := GetFlowNode(t, entry);
      var startNode: Option<nat> := None;
      if flowNode.Some? {
        startNode := TraverseToFlowStart(g, t, entry, flowNode.value);
      }
      if startNode.None? {
        assert StartOf(g, t, entries[idx]).None?;
        return Err(NoFlowContainer);
      }
      flowContainers, result := AddEntry(entries, starts, startNode.value, flowContainers, result, targetType, typeAt);
      starts := starts + [startNode.value];
    }
    assert entries[..|entries|] == entries;
    return Ok(result);
  }

  /** An access that will be shared is never narrowed itself, so the two rewrites of
      pass 3 never apply to the same access. */
  lemma SharedIsNeverNarrowed(entries: seq<NodeId>, starts: seq<nat>, targetType: nat, typeAt: NodeId -> nat, i: nat)
    requires |starts| == |entries| && i < |entries|
    requires Analysis(entries, starts, targetType, typeAt)[i].willBeShared
    ensures Analysis(entries, starts, targetType, typeAt)[i].recommendedNode == PreserveNotNarrowed
  {
    var k :| i < k < |entries| && FirstInContainer(starts, k) == i && Narrowed(entries[k], targetType, typeAt);
    assert starts[i] == starts[k];
    assert FirstInContainer(starts, i) == i;
  }

  /** A narrowed access points at an earlier access of the same flow container, which
      will be shared and is itself not narrowed: the temporary it reads is declared. */
  lemma NarrowedPointsAtSharedAccess(entries: seq<NodeId>, starts: seq<nat>, targetType: nat, typeAt: NodeId -> nat, i: nat)
    requires |starts| == |entries| && i < |entries|
    requires Analysis(entries, starts, targetType, typeAt)[i].recommendedNode.SharedReference?
    ensures var j := Analysis(entries, starts, targetType, typeAt)[i].recommendedNode.index;
            && j < i && starts[j] == starts[i]
            && Analysis(entries, starts, targetType, typeAt)[j].willBeShared
            && Analysis(entries, starts, targetType, typeAt)[j].recommendedNode == PreserveNotNarrowed
  {
    var j := FirstInContainer(starts, i);
    assert FirstInContainer(starts, j) == j;
    assert NodeUpTo(entries, starts, targetType, typeAt, j, |entries|).willBeShared;
  }

  /** An access is narrowed exactly when an earlier access shares its flow start and its
      type differs from the input's. */
  lemma NarrowedIff(entries: seq<NodeId>, starts: seq<nat>, targetType: nat, typeAt: NodeId -> nat, i: nat)
    requires |starts| == |entries| && i < |entries|
    ensures Analysis(entries, starts, targetType, typeAt)[i].recommendedNode.SharedReference? <==>
              (exists j :: 0 <= j < i && starts[j] == starts[i]) && typeAt(entries[i]) != targetType
  {
    if exists j :: 0 <= j < i && starts[j] == starts[i] {
      var j :| 0 <= j < i && starts[j] == starts[i];
      assert FirstInContainer(starts, i) <= j;
    }
  }
}
