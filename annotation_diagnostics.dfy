/** The diagnostics builders of ngtsc's annotation handlers
    (ngtsc/annotations/src/diagnostics.ts): undecorated providers, duplicate directive
    declarations, and undecorated classes using Angular features. */
module AnnotationDiagnostics {
  import opened Wrappers

  /** A TypeScript node a diagnostic can point at. */
  type DiagnosticNode = nat

  datatype ErrorCode = UndecoratedProvider | UndecoratedClassUsingAngularFeatures

  datatype RelatedInformation = RelatedInformation(node: DiagnosticNode, messageText: string)

  /** `makeDiagnostic(code, node, messageText, relatedInformation)` */
  datatype TsDiagnostic = TsDiagnostic(code: ErrorCode, node: DiagnosticNode, messageText: string,
                                       relatedInformation: seq<RelatedInformation>)

  /** A `Reference<ClassDeclaration>`: the class declaration and the text of its name. */
  datatype ProviderReference = ProviderReference(node: DiagnosticNode, name: string)

  // ---------------------------------------------------------------- getProviderDiagnostics

  const CannotBeCreated := "' cannot be created via dependency injection, as it does not have an Angular decorator. "
  const ErrorAtRuntime := "This will result in an error at runtime.\n\nEither add the @Injectable() decorator to '"
  const OrConfigureProvider := "', or configure a different provider (such as a provider with 'useFactory').\n"

  function UndecoratedProviderMessage(name: string): string {
    "The class '" + name + CannotBeCreated + ErrorAtRuntime + name + OrConfigureProvider
  }

  /** The diagnostic for one undecorated provider, reported at `contextNode` and pointing
      back at the class declaration. */
  function UndecoratedProviderDiagnostic(provider: ProviderReference, contextNode: DiagnosticNode): (d: TsDiagnostic)
    ensures d.code == UndecoratedProvider && d.node == contextNode
    ensures d.relatedInformation == [RelatedInformation(provider.node, "'" + provider.name + "' is declared here.")]
  {
    TsDiagnostic(UndecoratedProvider, contextNode, UndecoratedProviderMessage(provider.name),
                 [RelatedInformation(provider.node, "'" + provider.name + "' is declared here.")])
  }

  /** The providers the registry does not know as injectable, in iteration order. */
  function Undecorated(providers: seq<ProviderReference>, isInjectable: DiagnosticNode -> bool): (r: seq<ProviderReference>)
    ensures |r| <= |providers|
  {
    if providers == [] then []
    else
      var init := Undecorated(providers[..|providers| - 1], isInjectable);
      var last := providers[|providers| - 1];
      if isInjectable(last.node) then init else init + [last]
  }

  /** The undecorated providers are exactly the non-injectable ones of the set. */
  lemma {:induction false} UndecoratedMembers(providers: seq<ProviderReference>, isInjectable: DiagnosticNode -> bool)
    ensures forall p :: p in Undecorated(providers, isInjectable) <==> p in providers && !isInjectable(p.node)
  {
    if providers != [] {
      var init := providers[..|providers| - 1];
      UndecoratedMembers(init, isInjectable);
      assert providers == init + [providers[|providers| - 1]];
    }
  }

  /** One diagnostic per undecorated provider, in order; `originFor` is
      `provider.getOriginForDiagnostics(providersDeclaration)`. */
  function ProviderDiagnostics(providers: seq<ProviderReference>, originFor: ProviderReference -> DiagnosticNode): (r: seq<TsDiagnostic>)
    ensures |r| == |providers|
    ensures forall i :: 0 <= i < |r| ==> r[i] == UndecoratedProviderDiagnostic(providers[i], originFor(providers[i]))
  {
    if providers == [] then []
    else
      ProviderDiagnostics(providers[..|providers| - 1], originFor)
      + [UndecoratedProviderDiagnostic(providers[|providers| - 1], originFor(providers[|providers| - 1]))]
  }

  /** `getProviderDiagnostics`: skip the injectable providers, report each other one. */
  method GetProviderDiagnostics(providerClasses: seq<ProviderReference>, isInjectable: DiagnosticNode -> bool,
                                originFor: ProviderReference -> DiagnosticNode)
    returns (diagnostics: seq<TsDiagnostic>)
    ensures diagnostics == ProviderDiagnostics(Undecorated(providerClasses, isInjectable), originFor)
  {
    diagnostics := [];
    for i := 0 to |providerClasses|
      invariant diagnostics == ProviderDiagnostics(Undecorated(providerClasses[..i], isInjectable), originFor)
    {
      var provider := providerClasses[i];
      assert providerClasses[..i + 1][..i] == providerClasses[..i];
      ghost var before := Undecorated(providerClasses[..i], isInjectable);
      if isInjectable(provider.node) {
        assert Undecorated(providerClasses[..i + 1], isInjectable) == before;
        continue;
      }
      var contextNode := originFor(provider);
      assert Undecorated(providerClasses[..i + 1], isInjectable) == before + [provider];
      assert (before + [provider])[..|before|] == before;
      diagnostics := diagnostics + [UndecoratedProviderDiagnostic(provider, contextNode)];
    }
    assert providerClasses[..|providerClasses|] == providerClasses;
  }

  /** No diagnostic exactly when every provider is injectable. */
  lemma NoProviderDiagnosticsIff(providers: seq<ProviderReference>, isInjectable: DiagnosticNode -> bool,
                                 originFor: ProviderReference -> DiagnosticNode)
    ensures ProviderDiagnostics(Undecorated(providers, isInjectable), originFor) == []
            <==> forall p :: p in providers ==> isInjectable(p.node)
  {
    UndecoratedMembers(providers, isInjectable);
    var undecorated := Undecorated(providers, isInjectable);
    if undecorated != [] {
      assert undecorated[0] in undecorated;
    }
  }

  /** Each diagnostic reports a non-injectable provider of the set; an injectable one is
      never reported. */
  lemma ProviderDiagnosticsReportUndecorated(providers: seq<ProviderReference>, isInjectable: DiagnosticNode -> bool,
                                             originFor: ProviderReference -> DiagnosticNode)
    ensures forall d :: d in ProviderDiagnostics(Undecorated(providers, isInjectable), originFor) ==>
              exists p :: p in providers && !isInjectable(p.node) && d == UndecoratedProviderDiagnostic(p, originFor(p))
  {
    UndecoratedMembers(providers, isInjectable);
    var undecorated := Undecorated(providers, isInjectable);
    var diags := ProviderDiagnostics(undecorated, originFor);
    forall d | d in diags
      ensures exists p :: p in providers && !isInjectable(p.node) && d == UndecoratedProviderDiagnostic(p, originFor(p))
    {
      var i :| 0 <= i < |diags| && diags[i] == d;
      var p := undecorated[i];
      assert p in undecorated;
      assert d == UndecoratedProviderDiagnostic(p, originFor(p));
    }
  }

  // ---------------------------------------------------------------- getDirectiveDiagnostics

  /** `getDirectiveDiagnostics`: the duplicate-declaration error when the scope registry
      reports duplicates (`makeDuplicateDeclarationError` is passed in), else nothing. */
  function DirectiveDiagnostics<D>(node: DiagnosticNode, duplicateDeclarations: Option<seq<D>>, kind: string,
                                   makeDuplicateDeclarationError: (DiagnosticNode, seq<D>, string) -> TsDiagnostic)
    : (r: seq<TsDiagnostic>)
    ensures r == [] <==> duplicateDeclarations.None?
    ensures r != [] ==> r == [makeDuplicateDeclarationError(node, duplicateDeclarations.value, kind)]
  {
    if duplicateDeclarations.Some? then [makeDuplicateDeclarationError(node, duplicateDeclarations.value, kind)] else []
  }

  // ---------------------------------------------------------------- getUndecoratedClassWithAngularFeaturesDiagnostic

  const UndecoratedClassMessage := "Class is using Angular features but is not decorated. Please add an explicit @Directive decorator."

  /** The diagnostic does not depend on the class beyond pointing at it. */
  function UndecoratedClassWithAngularFeaturesDiagnostic(node: DiagnosticNode): (d: TsDiagnostic)
    ensures d.code == UndecoratedClassUsingAngularFeatures && d.node == node
    ensures d.messageText == UndecoratedClassMessage && d.relatedInformation == []
  {
    TsDiagnostic(UndecoratedClassUsingAngularFeatures, node, UndecoratedClassMessage, [])
  }
}
