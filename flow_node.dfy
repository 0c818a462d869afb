/** `traverseToFlowStart` and `getFlowNode` (flow_analysis/flow_node.ts): walk the binder's
    control-flow graph back from a reference to the start of its flow container. */
module FlowNodes {
  import opened Wrappers
  import opened Ast

  /** A binder flow node. Each kind keeps the antecedent(s) the walk follows; a start
      keeps the function-like node whose flow it begins, when there is one. */
  datatype FlowNode =
    | FlowAssignment(antecedent: nat)
    | FlowCall(antecedent: nat)
    | FlowCondition(antecedent: nat)
    | FlowSwitchClause(antecedent: nat)
    | FlowLabel(antecedents: seq<nat>)
    | FlowArrayMutation(antecedent: nat)
    | FlowReduceLabel(antecedent: nat)
    | FlowStart(container: Option<NodeId>)
    | FlowUnreachable

  /** Flow nodes by identity. */
  type FlowGraph = map<nat, FlowNode>

  /** What the binder guarantees and the walk relies on: antecedents exist, a label has at
      least one antecedent, a start's container is a syntax node with its own flow node,
      and every syntax node's flow node exists. */
  predicate FlowWellFormed(g: FlowGraph, t: Tree) {
    && (forall f | f in g ::
         match g[f]
         case FlowLabel(antecedents) => |antecedents| > 0 && antecedents[0] in g
         case FlowStart(container) =>
           container.Some? ==> container.value in t && t[container.value].flowNode.Some? && t[container.value].flowNode.value in g
         case FlowUnreachable => true
         case _ => g[f].antecedent in g)
    && (forall n | n in t :: t[n].flowNode.Some? ==> t[n].flowNode.value in g)
  }

  /** The walk goes on into the containing function's flow, except for property and
      element accesses, and for `this` unless the container is an arrow function. */
  predicate ContinuesIntoContainer(t: Tree, referenceKind: SyntaxKind, container: Option<NodeId>)
    requires container.Some? ==> container.value in t
  {
    container.Some?
    && !referenceKind.PropertyAccessExpression?
    && !referenceKind.ElementAccessExpression?
    && !(referenceKind.ThisKeyword? && t[container.value].kind != FunctionLike(true))
  }

  /** The number of steps after which the walk gives up. */
  const MaxFlowDepth: nat := 2000

  /** The walk from `flow` after `depth` steps. It ends at a start where it does not go on
      into the container, or with nothing at an unreachable node or on the 2000th step. */
  function Walk(g: FlowGraph, t: Tree, referenceKind: SyntaxKind, flow: nat, depth: nat): (r: Option<nat>)
    requires FlowWellFormed(g, t) && flow in g && depth < MaxFlowDepth
    ensures r.Some? ==> r.value in g && g[r.value].FlowStart?
    ensures r.Some? ==> !ContinuesIntoContainer(t, referenceKind, g[r.value].container)
    decreases MaxFlowDepth - depth
  {
    if depth + 1 == MaxFlowDepth then None
    else
      match g[flow]
      case FlowAssignment(a) => Walk(g, t, referenceKind, a, depth + 1)
      case FlowCall(a) => Walk(g, t, referenceKind, a, depth + 1)
      case FlowCondition(a) => Walk(g, t, referenceKind, a, depth + 1)
      case FlowSwitchClause(a) => Walk(g, t, referenceKind, a, depth + 1)
      case FlowLabel(antecedents) => Walk(g, t, referenceKind, antecedents[0], depth + 1)
      case FlowArrayMutation(a) => Walk(g, t, referenceKind, a, depth + 1)
      case FlowReduceLabel(a) => Walk(g, t, referenceKind, a, depth + 1)
      case FlowStart(container) =>
        if ContinuesIntoContainer(t, referenceKind, container)
        then Walk(g, t, referenceKind, t[container.value].flowNode.value, depth + 1)
        else Some(flow)
      case FlowUnreachable => None
  }

  /** A start reached on the first step where the walk does not go on is the answer. */
  lemma StartIsItsOwnFlowStart(g: FlowGraph, t: Tree, referenceKind: SyntaxKind, flow: nat)
    requires FlowWellFormed(g, t) && flow in g && g[flow].FlowStart?
    requires !ContinuesIntoContainer(t, referenceKind, g[flow].container)
    ensures Walk(g, t, referenceKind, flow, 0) == Some(flow)
  {
  }

  /** Walking from a node and walking from the node it steps to give the same start, as
      long as the step budget is not used up. */
  lemma {:induction false} WalkThroughAntecedent(g: FlowGraph, t: Tree, referenceKind: SyntaxKind, flow: nat, a: nat,
                                                 depth: nat)
    requires FlowWellFormed(g, t) && flow in g && depth + 1 < MaxFlowDepth
    requires g[flow].FlowAssignment? || g[flow].FlowCall? || g[flow].FlowCondition? || g[flow].FlowSwitchClause?
             || g[flow].FlowArrayMutation? || g[flow].FlowReduceLabel?
    requires a == g[flow].antecedent
    ensures a in g
    ensures Walk(g, t, referenceKind, flow, depth) == Walk(g, t, referenceKind, a, depth + 1)
  {
  }

  /** A walk never yields a start with a container when the reference is a property or
      element access: such references stop at the first start they reach. */
  lemma AccessStopsAtFirstStart(g: FlowGraph, t: Tree, referenceKind: SyntaxKind, flow: nat, depth: nat)
    requires FlowWellFormed(g, t) && flow in g && depth < MaxFlowDepth
    requires referenceKind.PropertyAccessExpression? || referenceKind.ElementAccessExpression?
    requires g[flow].FlowStart? && depth + 1 < MaxFlowDepth
    ensures Walk(g, t, referenceKind, flow, depth) == Some(flow)
  {
  }

  /** On a cycle of assignments the walk does not run forever: it gives up and yields
      nothing once the step budget is spent. */
  lemma {:induction false} SelfLoopGivesUp(g: FlowGraph, t: Tree, referenceKind: SyntaxKind, flow: nat, depth: nat)
    requires FlowWellFormed(g, t) && flow in g && depth < MaxFlowDepth
    requires g[flow] == FlowAssignment(flow)
    ensures Walk(g, t, referenceKind, flow, depth) == None
    decreases MaxFlowDepth - depth
  {
    if depth + 1 < MaxFlowDepth {
      SelfLoopGivesUp(g, t, referenceKind, flow, depth + 1);
    }
  }

  /** `traverseToFlowStart`: the loop with its depth counter. */
  method TraverseToFlowStart(g: FlowGraph, t: Tree, reference: NodeId, start: nat) returns (r: Option<nat>)
    requires FlowWellFormed(g, t) && reference in t && start in g
    ensures r == Walk(g, t, t[reference].kind, start, 0)
    ensures r.Some? ==> r.value in g && g[r.value].FlowStart?
  {
    var kind := t[reference].kind;
    var flow := start;
    var flowDepth: nat := 0;
    while true
      invariant flowDepth < MaxFlowDepth && flow in g
      invariant Walk(g, t, kind, flow, flowDepth) == Walk(g, t, kind, start, 0)
      decreases MaxFlowDepth - flowDepth
    {
      if flowDepth + 1 == MaxFlowDepth {
        return None;
      }
      match g[flow] {
        case FlowAssignment(a) => flow := a;
        case FlowCall(a) => flow := a;
        case FlowCondition(a) => flow := a;
        case FlowSwitchClause(a) => flow := a;
        case FlowLabel(antecedents) => flow := antecedents[0];
        case FlowArrayMutation(a) => flow := a;
        case FlowReduceLabel(a) => flow := a;
        case FlowStart(container) =>
          if ContinuesIntoContainer(t, kind, container) {
            flow := t[container.value].flowNode.value;
          } else {
            return Some(flow);
          }
        case FlowUnreachable =>
          return None;
      }
      flowDepth := flowDepth + 1;
    }
  }

  /** `getFlowNode`: the node's own flow node, if it has one. */
  function GetFlowNode(t: Tree, node: NodeId): Option<nat>
    requires node in t
  {
    t[node].flowNode
  }
}
