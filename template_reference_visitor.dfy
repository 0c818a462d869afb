/** `TemplateReferenceVisitor` and `TemplateExpressionReferenceVisitor`
    (template_reference_visitor.ts): find the property reads and writes in a component's
    template that access a known input. */
module TemplateReferences {
  import opened Wrappers
  import opened Ast
  import opened TemplateAst
  import opened InputIds
  import opened IdentifyInputs

  /** `TmplInputExpressionReference`. The read is kept as its expression id and span end;
      the containing template node as its id and the url of its file. */
  datatype TmplInputExpressionReference = TmplInputExpressionReference(
    target: NodeId,
    targetInputId: InputId,
    readId: ExprId,
    readSpanEnd: nat,
    containingTmplNode: TmplNodeId,
    containingUrl: string)

  /** What `templateTypeChecker.getSymbolOfNode` answers: nothing, a symbol of another
      kind, or an expression symbol with its TypeScript symbol, if any. */
  datatype TcbSymbol = NoSymbol | OtherSymbolKind | ExpressionSymbol(tsSymbol: Option<Symbol>)

  /** The checkers' answers for one component class: the type-check-block symbol of an
      access, whether the access resolves to a template variable or local reference
      (`getExpressionTarget`), the class's name node, and the component type's properties. */
  datatype TemplateServices = TemplateServices(
    symbolOfNode: ExprId -> TcbSymbol,
    hasExpressionTarget: ExprId -> bool,
    componentName: Option<NodeId>,
    componentProperty: string -> Option<Symbol>)

  /** `symbol?.declarations ?? []` */
  function DeclarationsOf(s: Option<Symbol>): seq<NodeId> {
    if s.Some? && s.value.declarations.Some? then s.value.declarations.value else []
  }

  /** The active template node: its id and url. */
  datatype ActiveNode = ActiveNode(id: TmplNodeId, url: string)

  function Record(known: map<NodeId, KnownInput>, target: NodeId, readId: ExprId, spanEnd: nat, active: ActiveNode)
    : TmplInputExpressionReference
    requires target in known
  {
    TmplInputExpressionReference(target, known[target].inputId, readId, spanEnd, active.id, active.url)
  }

  /** `_checkAccessViaTemplateTypeCheckBlock`: an expression symbol with a known-input declaration. */
  function TcbTarget(svc: TemplateServices, known: map<NodeId, KnownInput>, readId: ExprId): Option<NodeId> {
    match svc.symbolOfNode(readId)
    case ExpressionSymbol(tsSymbol) => FindKnownDeclaration(DeclarationsOf(tsSymbol), known)
    case _ => None
  }

  /** `_checkAccessViaOwningComponentClassType`: skipped for template variables and local
      references, non-implicit receivers and unnamed classes; otherwise the class type's
      property of that name, when one of its declarations is a known input. */
  function ClassTypeTarget(svc: TemplateServices, known: map<NodeId, KnownInput>, readId: ExprId,
                           receiver: Expr, name: string): Option<NodeId>
  {
    if svc.hasExpressionTarget(readId) || !receiver.ImplicitReceiver? || svc.componentName.None? then None
    else FindKnownDeclaration(DeclarationsOf(svc.componentProperty(name)), known)
  }

  /** `_inspectPropertyAccess`: the type-check-block lookup first, the class-type lookup
      only when the first records nothing; at most one record per access. */
  function AccessRecord(svc: TemplateServices, known: map<NodeId, KnownInput>, readId: ExprId, receiver: Expr,
                        name: string, spanEnd: nat, active: ActiveNode): (r: Option<TmplInputExpressionReference>)
    ensures TcbTarget(svc, known, readId).Some? ==>
              r == Some(Record(known, TcbTarget(svc, known, readId).value, readId, spanEnd, active))
    ensures TcbTarget(svc, known, readId).None? ==>
              (r.Some? <==> ClassTypeTarget(svc, known, readId, receiver, name).Some?)
    ensures r.Some? ==> r.value.target in known && r.value.targetInputId == known[r.value.target].inputId
    ensures r.Some? ==> r.value.readId == readId && r.value.readSpanEnd == spanEnd
    ensures r.Some? ==> r.value.containingTmplNode == active.id && r.value.containingUrl == active.url
  {
    match TcbTarget(svc, known, readId)
    case Some(d) => Some(Record(known, d, readId, spanEnd, active))
    case None =>
      match ClassTypeTarget(svc, known, readId, receiver, name)
      case Some(d) => Some(Record(known, d, readId, spanEnd, active))
      case None => None
  }

  function OptionToSeq<T>(o: Option<T>): seq<T> {
    if o.Some? then [o.value] else []
  }

  /** The records of an expression, as `visitPropertyRead`/`visitPropertyWrite` are written:
      an access is inspected but its receiver, and a write's value, are not visited. Every
      record it makes is one the corrected visit makes too. */
  function ExprRefsAsWritten(svc: TemplateServices, known: map<NodeId, KnownInput>, e: Expr, active: ActiveNode)
    : (r: seq<TmplInputExpressionReference>)
    ensures forall x :: x in r ==> x in ExprRefs(svc, known, e, active)
  {
    match e
    case ImplicitReceiver => []
    case PropertyRead(id, receiver, name, spanEnd) => OptionToSeq(AccessRecord(svc, known, id, receiver, name, spanEnd, active))
    case PropertyWrite(id, receiver, name, value, spanEnd) => OptionToSeq(AccessRecord(svc, known, id, receiver, name, spanEnd, active))
    case OtherExpr(children) => ExprListRefsAsWritten(svc, known, children, active)
  }

  function ExprListRefsAsWritten(svc: TemplateServices, known: map<NodeId, KnownInput>, es: seq<Expr>, active: ActiveNode)
    : (r: seq<TmplInputExpressionReference>)
    ensures forall x :: x in r ==> x in ExprListRefs(svc, known, es, active)
  {
    if es == [] then [] else ExprRefsAsWritten(svc, known, es[0], active) + ExprListRefsAsWritten(svc, known, es[1..], active)
  }

  /** The records of an expression when every access is inspected and then, as
      `RecursiveAstVisitor` does, its receiver (and a write's value) are visited too. */
  function ExprRefs(svc: TemplateServices, known: map<NodeId, KnownInput>, e: Expr, active: ActiveNode)
    : seq<TmplInputExpressionReference>
  {
    match e
    case ImplicitReceiver => []
    case PropertyRead(id, receiver, name, spanEnd) =>
      OptionToSeq(AccessRecord(svc, known, id, receiver, name, spanEnd, active)) + ExprRefs(svc, known, receiver, active)
    case PropertyWrite(id, receiver, name, value, spanEnd) =>
      OptionToSeq(AccessRecord(svc, known, id, receiver, name, spanEnd, active))
      + ExprRefs(svc, known, receiver, active) + ExprRefs(svc, known, value, active)
    case OtherExpr(children) => ExprListRefs(svc, known, children, active)
  }

  function ExprListRefs(svc: TemplateServices, known: map<NodeId, KnownInput>, es: seq<Expr>, active: ActiveNode)
    : seq<TmplInputExpressionReference>
  {
    if es == [] then [] else ExprRefs(svc, known, es[0], active) + ExprListRefs(svc, known, es[1..], active)
  }

  /** `e` contains, at any depth, a read or write with this id, receiver, name and span end. */
  predicate AccessAt(e: Expr, id: ExprId, receiver: Expr, name: string, spanEnd: nat)
    decreases e, 1
  {
    match e
    case ImplicitReceiver => false
    case PropertyRead(i, rcv, n, end) =>
      (i == id && rcv == receiver && n == name && end == spanEnd) || AccessAt(rcv, id, receiver, name, spanEnd)
    case PropertyWrite(i, rcv, n, value, end) =>
      (i == id && rcv == receiver && n == name && end == spanEnd)
      || AccessAt(rcv, id, receiver, name, spanEnd) || AccessAt(value, id, receiver, name, spanEnd)
    case OtherExpr(children) => AccessInList(children, id, receiver, name, spanEnd)
  }

  predicate AccessInList(es: seq<Expr>, id: ExprId, receiver: Expr, name: string, spanEnd: nat)
    decreases es, 0
  {
    es != [] && (AccessAt(es[0], id, receiver, name, spanEnd) || AccessInList(es[1..], id, receiver, name, spanEnd))
  }

  /** With the corrected visit, every access anywhere in the expression whose lookup
      succeeds is recorded, receivers and written values included. */
  lemma {:induction false} EveryAccessInspected(svc: TemplateServices, known: map<NodeId, KnownInput>, e: Expr,
                                                active: ActiveNode, id: ExprId, receiver: Expr, name: string, spanEnd: nat)
    requires AccessAt(e, id, receiver, name, spanEnd)
    requires AccessRecord(svc, known, id, receiver, name, spanEnd, active).Some?
    ensures AccessRecord(svc, known, id, receiver, name, spanEnd, active).value in ExprRefs(svc, known, e, active)
    decreases e, 1
  {
    match e
    case ImplicitReceiver =>
    case PropertyRead(i, rcv, n, end) =>
      if !(i == id && rcv == receiver && n == name && end == spanEnd) {
        EveryAccessInspected(svc, known, rcv, active, id, receiver, name, spanEnd);
      }
    case PropertyWrite(i, rcv, n, value, end) =>
      if !(i == id && rcv == receiver && n == name && end == spanEnd) {
        if AccessAt(rcv, id, receiver, name, spanEnd) {
          EveryAccessInspected(svc, known, rcv, active, id, receiver, name, spanEnd);
        } else {
          EveryAccessInspected(svc, known, value, active, id, receiver, name, spanEnd);
        }
      }
    case OtherExpr(children) =>
      EveryListAccessInspected(svc, known, children, active, id, receiver, name, spanEnd);
  }

  lemma {:induction false} EveryListAccessInspected(svc: TemplateServices, known: map<NodeId, KnownInput>, es: seq<Expr>,
                                                    active: ActiveNode, id: ExprId, receiver: Expr, name: string, spanEnd: nat)
    requires AccessInList(es, id, receiver, name, spanEnd)
    requires AccessRecord(svc, known, id, receiver, name, spanEnd, active).Some?
    ensures AccessRecord(svc, known, id, receiver, name, spanEnd, active).value in ExprListRefs(svc, known, es, active)
    decreases es, 0
  {
    if AccessAt(es[0], id, receiver, name, spanEnd) {
      EveryAccessInspected(svc, known, es[0], active, id, receiver, name, spanEnd);
    } else {
      EveryListAccessInspected(svc, known, es[1..], active, id, receiver, name, spanEnd);
    }
  }

  /** Every record points at a known input with that input's id. */
  lemma {:induction false} RecordsAreKnownInputs(svc: TemplateServices, known: map<NodeId, KnownInput>, e: Expr,
                                                 active: ActiveNode)
    ensures forall r :: r in ExprRefs(svc, known, e, active) ==>
              r.target in known && r.targetInputId == known[r.target].inputId && r.containingTmplNode == active.id
    decreases e, 1
  {
    match e
    case ImplicitReceiver =>
    case PropertyRead(id, receiver, name, spanEnd) =>
      RecordsAreKnownInputs(svc, known, receiver, active);
    case PropertyWrite(id, receiver, name, value, spanEnd) =>
      RecordsAreKnownInputs(svc, known, receiver, active);
      RecordsAreKnownInputs(svc, known, value, active);
    case OtherExpr(children) =>
      RecordsOfListAreKnownInputs(svc, known, children, active);
  }

  lemma {:induction false} RecordsOfListAreKnownInputs(svc: TemplateServices, known: map<NodeId, KnownInput>,
                                                       es: seq<Expr>, active: ActiveNode)
    ensures forall r :: r in ExprListRefs(svc, known, es, active) ==>
              r.target in known && r.targetInputId == known[r.target].inputId && r.containingTmplNode == active.id
    decreases es, 0
  {
    if es != [] {
      RecordsAreKnownInputs(svc, known, es[0], active);
      RecordsOfListAreKnownInputs(svc, known, es[1..], active);
    }
  }

  /** The discrepancy: in `{{ myInput.length }}` the inner read of `myInput`, which the
      class-type lookup resolves to a known input, is recorded by the corrected visit but
      not by the code as written. */
  lemma NestedReadMissedAsWritten(svc: TemplateServices, known: map<NodeId, KnownInput>, active: ActiveNode,
                                  decl: NodeId, input: KnownInput)
    requires known == map[decl := input]
    requires svc.symbolOfNode(1) == NoSymbol && svc.symbolOfNode(2) == NoSymbol
    requires !svc.hasExpressionTarget(1) && !svc.hasExpressionTarget(2)
    requires svc.componentName.Some?
    requires svc.componentProperty("myInput") == Some(Symbol(1, Some([decl])))
    ensures
      var inner := PropertyRead(1, ImplicitReceiver, "myInput", 12);
      var outer := PropertyRead(2, inner, "length", 19);
      && ExprRefsAsWritten(svc, known, outer, active) == []
      && ExprRefs(svc, known, outer, active) == [Record(known, decl, 1, 12, active)]
  {
    var inner := PropertyRead(1, ImplicitReceiver, "myInput", 12);
    var outer := PropertyRead(2, inner, "length", 19);
    assert DeclarationsOf(svc.componentProperty("myInput")) == [decl];
    assert ClassTypeTarget(svc, known, 2, inner, "length").None?;
    assert TcbTarget(svc, known, 2).None?;
    assert TcbTarget(svc, known, 1).None?;
    assert ClassTypeTarget(svc, known, 1, ImplicitReceiver, "myInput") == Some(decl);
    assert AccessRecord(svc, known, 2, inner, "length", 19, active).None?;
    assert ExprRefs(svc, known, ImplicitReceiver, active) == [];
    assert ExprRefs(svc, known, inner, active) == [Record(known, decl, 1, 12, active)];
  }

  /** `TemplateExpressionReferenceVisitor`: the active template node and the shared list
      of records. */
  class TemplateExpressionReferenceVisitor {
    const services: TemplateServices
    const knownInputs: map<NodeId, KnownInput>
    var activeTmplAstNode: Option<ActiveNode>
    var result: seq<TmplInputExpressionReference>

    constructor(services: TemplateServices, knownInputs: map<NodeId, KnownInput>)
      ensures this.services == services && this.knownInputs == knownInputs
      ensures activeTmplAstNode.None? && result == []
    {
      this.services := services;
      this.knownInputs := knownInputs;
      activeTmplAstNode := None;
      result := [];
    }

    /** `visitTemplateExpression`: sets the active node, then visits the expression. */
    method VisitTemplateExpression(active: ActiveNode, e: Expr)
      modifies this
      ensures activeTmplAstNode == Some(active)
      ensures result == old(result) + ExprRefs(services, knownInputs, e, active)
    {
      activeTmplAstNode := Some(active);
      Visit(e);
    }

    /** Visits an expression: accesses are inspected, and the visit goes on into receivers,
        written values and the sub-expressions of any other expression. */
    method Visit(e: Expr)
      requires activeTmplAstNode.Some?
      modifies this`result
      ensures result == old(result) + ExprRefs(services, knownInputs, e, activeTmplAstNode.value)
      decreases e, 1
    {
      match e
      case ImplicitReceiver =>
      case PropertyRead(_, _, _, _) => VisitPropertyRead(e);
      case PropertyWrite(_, _, _, _, _) => VisitPropertyWrite(e);
      case OtherExpr(children) => VisitAll(children);
    }

    /** `visitPropertyRead`, with the receiver visited after the inspection. */
    method VisitPropertyRead(e: Expr)
      requires activeTmplAstNode.Some? && e.PropertyRead?
      modifies this`result
      ensures result == old(result) + ExprRefs(services, knownInputs, e, activeTmplAstNode.value)
      decreases e, 0
    {
      InspectPropertyAccess(e.id, e.receiver, e.name, e.spanEnd);
      Visit(e.receiver);
    }

    /** `visitPropertyWrite`, with the receiver and the written value visited after the
        inspection. */
    method VisitPropertyWrite(e: Expr)
      requires activeTmplAstNode.Some? && e.PropertyWrite?
      modifies this`result
      ensures result == old(result) + ExprRefs(services, knownInputs, e, activeTmplAstNode.value)
      decreases e, 0
    {
      ghost var r0, active := result, activeTmplAstNode.value;
      ghost var own := OptionToSeq(AccessRecord(services, knownInputs, e.id, e.receiver, e.name, e.spanEnd, active));
      ghost var inReceiver, inValue := ExprRefs(services, knownInputs, e.receiver, active),
                                       ExprRefs(services, knownInputs, e.value, active);
      InspectPropertyAccess(e.id, e.receiver, e.name, e.spanEnd);
      Visit(e.receiver);
      Visit(e.value);
      assert result == r0 + own + inReceiver + inValue;
      assert ExprRefs(services, knownInputs, e, active) == own + inReceiver + inValue;
    }

    method VisitAll(es: seq<Expr>)
      requires activeTmplAstNode.Some?
      modifies this`result
      ensures result == old(result) + ExprListRefs(services, knownInputs, es, activeTmplAstNode.value)
      decreases es, 0
    {
      if es != [] {
        Visit(es[0]);
        VisitAll(es[1..]);
      }
    }

    /** `_inspectPropertyAccess` */
    method InspectPropertyAccess(id: ExprId, receiver: Expr, name: string, spanEnd: nat)
      requires activeTmplAstNode.Some?
      modifies this`result
      ensures result == old(result) + OptionToSeq(AccessRecord(services, knownInputs, id, receiver, name, spanEnd,
                                                               activeTmplAstNode.value))
    {
      var tcbTarget := TcbTarget(services, knownInputs, id);
      if tcbTarget.Some? {
        result := result + [Record(knownInputs, tcbTarget.value, id, spanEnd, activeTmplAstNode.value)];
        return;
      }
      var classTarget := ClassTypeTarget(services, knownInputs, id, receiver, name);
      if classTarget.Some? {
        result := result + [Record(knownInputs, classTarget.value, id, spanEnd, activeTmplAstNode.value)];
      }
    }
  }

  /** The records of template nodes: bound text, bound-event handlers and bound-attribute
      values are inspected with their node active; containers are descended into. */
  function TemplateRefs(svc: TemplateServices, known: map<NodeId, KnownInput>, nodes: seq<TmplNode>)
    : seq<TmplInputExpressionReference>
    decreases nodes
  {
    if nodes == [] then []
    else
      var n := nodes[0];
      var own :=
        match n
        case BoundText(id, url, value) => ExprRefs(svc, known, value, ActiveNode(id, url))
        case BoundEvent(id, url, handler) => ExprRefs(svc, known, handler, ActiveNode(id, url))
        case BoundAttribute(id, url, value) => ExprRefs(svc, known, value, ActiveNode(id, url))
        case Container(_, _, children) => TemplateRefs(svc, known, children)
        case Leaf(_, _) => [];
      own + TemplateRefs(svc, known, nodes[1..])
  }

  /** `TemplateReferenceVisitor`: walks template nodes and hands each bound expression to
      the expression visitor, whose record list it shares. */
  class TemplateReferenceVisitor {
    const expressionVisitor: TemplateExpressionReferenceVisitor

    constructor(services: TemplateServices, knownInputs: map<NodeId, KnownInput>)
      ensures fresh(expressionVisitor)
      ensures expressionVisitor.services == services && expressionVisitor.knownInputs == knownInputs
      ensures expressionVisitor.result == []
    {
      expressionVisitor := new TemplateExpressionReferenceVisitor(services, knownInputs);
    }

    function Result(): seq<TmplInputExpressionReference>
      reads expressionVisitor
    {
      expressionVisitor.result
    }

    /** `template.forEach((node) => node.visit(visitor))` */
    method VisitNodes(nodes: seq<TmplNode>)
      modifies expressionVisitor
      ensures Result() == old(Result()) + TemplateRefs(expressionVisitor.services, expressionVisitor.knownInputs, nodes)
      decreases nodes
    {
      if nodes == [] {
        return;
      }
      var n := nodes[0];
      var ev := expressionVisitor;
      match n {
        case BoundText(id, url, value) => ev.VisitTemplateExpression(ActiveNode(id, url), value);
        case BoundEvent(id, url, handler) => ev.VisitTemplateExpression(ActiveNode(id, url), handler);
        case BoundAttribute(id, url, value) => ev.VisitTemplateExpression(ActiveNode(id, url), value);
        case Container(_, _, children) => VisitNodes(children);
        case Leaf(_, _) =>
      }
      VisitNodes(nodes[1..]);
    }
  }
}
