/** ngcc's `MissingInjectableMigration` (ngcc/src/migrations/missing_injectable_migration.ts):
    classes provided by an NgModule, Directive or Component get a synthetic `@Injectable()`
    unless they already carry one of Angular's class decorators, and object-literal providers
    with only `provide` get `useValue: undefined`. */
module MissingInjectable {
  import opened Wrappers
  import opened NgccMigrationHost
  import MigrationResults

  /** A `Reference` to a declaration, and whether that declaration is a class. */
  datatype DeclarationRef = DeclarationRef(node: ClassId, isClass: bool)

  /** The partial evaluator's `ResolvedValue`, as far as the migration looks at it. A `Map`
      is its entries in insertion order. Keys are not required to be distinct: a JavaScript
      map holds one entry per key, and `Lookup` reads the first entry with a key. */
  datatype ResolvedValue =
    | RefValue(ref: DeclarationRef)
    | MapValue(entries: seq<MapEntry>)
    | ArrayValue(items: seq<ResolvedValue>)
    | NullValue
    | UndefinedValue
    | OtherValue

  datatype MapEntry = MapEntry(key: string, value: ResolvedValue)

  /** `ProviderLiteral`: an object literal met while evaluating providers, and its value. */
  datatype ProviderLiteral = ProviderLiteral(node: LiteralNode, resolvedValue: ResolvedValue)

  /** What `ProvidersEvaluator.evaluate` returns for a providers expression. */
  datatype Evaluation = Evaluation(literals: seq<ProviderLiteral>, resolvedValue: ResolvedValue)

  type Evaluator = ExprId -> Evaluation

  // ---------------------------------------------------------------- names

  /** `getAngularCoreDecoratorName`: the imported name of a decorator from `@angular/core`. */
  function AngularCoreDecoratorName(d: Decorator): (r: Option<string>)
    ensures r.Some? <==> d.imported.Some? && d.imported.value.from == AngularCore
    ensures r.Some? ==> r.value == d.imported.value.name
  {
    if d.imported.None? || d.imported.value.from != AngularCore then None else Some(d.imported.value.name)
  }

  /** `getPropertyNameText`: identifiers and string literals have a text, other names none. */
  function PropertyNameText(n: PropertyName): (r: Option<string>)
    ensures r.Some? <==> n.IdentifierName? || n.StringLiteralName?
    ensures r.Some? ==> r.value == n.text
  {
    if n.IdentifierName? || n.StringLiteralName? then Some(n.text) else None
  }

  // ---------------------------------------------------------------- needsInjectableDecorator

  const NoMigrateDecorators: set<string> := {"Injectable", "Directive", "Component", "Pipe"}

  /** A decorator that makes the class injectable already. */
  predicate Blocks(d: Decorator) {
    AngularCoreDecoratorName(d).Some? && AngularCoreDecoratorName(d).value in NoMigrateDecorators
  }

  /** The loop of `needsInjectableDecorator`: false at the first blocking decorator. */
  function NoneBlocks(ds: seq<Decorator>): (r: bool)
    ensures r <==> forall d :: d in ds ==> !Blocks(d)
  {
    if ds == [] then true
    else if Blocks(ds[0]) then false
    else
      assert forall d :: d in ds ==> d == ds[0] || d in ds[1..];
      NoneBlocks(ds[1..])
  }

  /** `needsInjectableDecorator`, over `host.getAllDecorators`. */
  function NeedsInjectableDecorator(env: HostEnv, synthetic: map<ClassId, seq<Decorator>>, c: ClassId): (r: bool)
    ensures r <==> AllDecorators(env, synthetic, c).None?
                   || forall d :: d in AllDecorators(env, synthetic, c).value ==> !Blocks(d)
  {
    var decorators := AllDecorators(env, synthetic, c);
    decorators.None? || NoneBlocks(decorators.value)
  }

  // ---------------------------------------------------------------- migrateProviders

  /** The index of the first entry for `key`. */
  function Lookup(entries: seq<MapEntry>, key: string): (r: Option<nat>)
    ensures r.Some? ==> r.value < |entries| && entries[r.value].key == key
    ensures r.Some? ==> forall i :: 0 <= i < r.value ==> entries[i].key != key
    ensures r.None? <==> forall i :: 0 <= i < |entries| ==> entries[i].key != key
  {
    if entries == [] then None
    else if entries[0].key == key then Some(0)
    else
      var rest := Lookup(entries[1..], key);
      if rest.Some? then Some(rest.value + 1) else None
  }

  predicate Has(entries: seq<MapEntry>, key: string) {
    Lookup(entries, key).Some?
  }

  /** `value.get('deps') == null`: no `deps`, or a `null` or `undefined` one. */
  predicate NoDeps(entries: seq<MapEntry>) {
    var i := Lookup(entries, "deps");
    i.None? || entries[i.value].value.NullValue? || entries[i.value].value.UndefinedValue?
  }

  /** The references `migrateProviders` hands to `migrateProviderReference`, in order: a
      reference itself, the `useClass` of a `{provide, useClass}` map without `deps`, and
      those of each array element. */
  function ProviderReferences(value: ResolvedValue): seq<DeclarationRef>
    decreases value, 1
  {
    match value
    case RefValue(r) => [r]
    case MapValue(entries) =>
      var useClass := Lookup(entries, "useClass");
      if Has(entries, "provide") && useClass.Some? && NoDeps(entries)
      then ProviderReferences(entries[useClass.value].value)
      else []
    case ArrayValue(items) => ItemsReferences(value, items)
    case _ => []
  }

  function ItemsReferences(value: ResolvedValue, items: seq<ResolvedValue>): seq<DeclarationRef>
    requires value.ArrayValue? && items <= value.items
    decreases value, 0, |items|
  {
    if items == [] then []
    else ItemsReferences(value, items[..|items| - 1]) + ProviderReferences(items[|items| - 1])
  }

  /** `migrateProviderReference`: a class in scope that needs it gets `@Injectable()`. */
  function MigrateReference(env: HostEnv, synthetic: map<ClassId, seq<Decorator>>, r: DeclarationRef)
    : (s: map<ClassId, seq<Decorator>>)
    ensures s != synthetic ==> r.isClass && env.inScope(r.node) && NeedsInjectableDecorator(env, synthetic, r.node)
    ensures r.isClass && env.inScope(r.node) && NeedsInjectableDecorator(env, synthetic, r.node) ==>
              s == synthetic[r.node := Injected(synthetic, r.node) + [SyntheticDecorator("Injectable")]]
  {
    if r.isClass && env.inScope(r.node) && NeedsInjectableDecorator(env, synthetic, r.node)
    then synthetic[r.node := Injected(synthetic, r.node) + [SyntheticDecorator("Injectable")]]
    else synthetic
  }

  /** The references migrated one after the other, each seeing the decorators injected
      for the ones before. */
  function MigrateReferences(env: HostEnv, synthetic: map<ClassId, seq<Decorator>>, refs: seq<DeclarationRef>)
    : map<ClassId, seq<Decorator>>
    decreases |refs|
  {
    if refs == [] then synthetic else MigrateReferences(env, MigrateReference(env, synthetic, refs[0]), refs[1..])
  }

  lemma {:induction false} MigrateReferencesConcat(env: HostEnv, synthetic: map<ClassId, seq<Decorator>>,
                                                  a: seq<DeclarationRef>, b: seq<DeclarationRef>)
    ensures MigrateReferences(env, synthetic, a + b) == MigrateReferences(env, MigrateReferences(env, synthetic, a), b)
    decreases |a|
  {
    if a != [] {
      assert (a + b)[1..] == a[1..] + b;
      MigrateReferencesConcat(env, MigrateReference(env, synthetic, a[0]), a[1..], b);
    } else {
      assert a + b == b;
    }
  }

  /** `migrateProviderReference` */
  method MigrateProviderReference(r: DeclarationRef, host: MigrationHost)
    modifies host`synthetic
    ensures host.synthetic == MigrateReference(host.env, old(host.synthetic), r)
  {
    if r.isClass && host.env.inScope(r.node) && NeedsInjectableDecorator(host.env, host.synthetic, r.node) {
      host.InjectSyntheticDecorator(r.node, SyntheticDecorator("Injectable"));
    }
  }

  /** `migrateProviders` */
  method MigrateProviders(value: ResolvedValue, host: MigrationHost)
    modifies host`synthetic
    ensures host.synthetic == MigrateReferences(host.env, old(host.synthetic), ProviderReferences(value))
    decreases value, 2
  {
    match value
    case RefValue(r) =>
      MigrateProviderReference(r, host);
      assert [r][1..] == [];
    case MapValue(entries) =>
      var useClass := Lookup(entries, "useClass");
      if Has(entries, "provide") && useClass.Some? && NoDeps(entries) {
        MigrateProviders(entries[useClass.value].value, host);
      }
    case ArrayValue(items) =>
      for k := 0 to |items|
        invariant host.synthetic == MigrateReferences(host.env, old(host.synthetic), ItemsReferences(value, items[..k]))
      {
        assert items[..k + 1][..k] == items[..k];
        MigrateProviders(items[k], host);
        MigrateReferencesConcat(host.env, old(host.synthetic), ItemsReferences(value, items[..k]), ProviderReferences(items[k]));
      }
      assert items[..|items|] == items;
    case _ =>
  }

  // ---------------------------------------------------------------- migrating twice changes nothing

  /** A reference the migration leaves alone. */
  ghost predicate Settled(env: HostEnv, synthetic: map<ClassId, seq<Decorator>>, r: DeclarationRef) {
    !r.isClass || !env.inScope(r.node) || !NeedsInjectableDecorator(env, synthetic, r.node)
  }

  /** Injected decorators are only ever added. */
  ghost predicate Grows(before: map<ClassId, seq<Decorator>>, after: map<ClassId, seq<Decorator>>) {
    forall c, d :: d in Injected(before, c) ==> d in Injected(after, c)
  }

  lemma SettledStays(env: HostEnv, s: map<ClassId, seq<Decorator>>, t: map<ClassId, seq<Decorator>>, r: DeclarationRef)
    requires Settled(env, s, r) && Grows(s, t)
    ensures Settled(env, t, r)
  {
    if r.isClass && env.inScope(r.node) {
      var d :| d in AllDecorators(env, s, r.node).value && Blocks(d);
      if env.decoratorsOf(r.node).None? || d !in env.decoratorsOf(r.node).value {
        assert d in Injected(s, r.node);
      }
      assert d in AllDecorators(env, t, r.node).value;
    }
  }

  lemma MigrateReferenceSettles(env: HostEnv, s: map<ClassId, seq<Decorator>>, r: DeclarationRef)
    ensures Grows(s, MigrateReference(env, s, r))
    ensures Settled(env, MigrateReference(env, s, r), r)
  {
    var t := MigrateReference(env, s, r);
    if t != s {
      assert SyntheticDecorator("Injectable") in Injected(t, r.node);
      assert Blocks(SyntheticDecorator("Injectable"));
    }
  }

  lemma {:induction false} MigrateReferencesSettles(env: HostEnv, s: map<ClassId, seq<Decorator>>, refs: seq<DeclarationRef>)
    ensures Grows(s, MigrateReferences(env, s, refs))
    ensures forall r :: r in refs ==> Settled(env, MigrateReferences(env, s, refs), r)
    decreases |refs|
  {
    if refs != [] {
      var s1 := MigrateReference(env, s, refs[0]);
      MigrateReferenceSettles(env, s, refs[0]);
      MigrateReferencesSettles(env, s1, refs[1..]);
      var t := MigrateReferences(env, s, refs);
      SettledStays(env, s1, t, refs[0]);
      forall r | r in refs
        ensures Settled(env, t, r)
      {
        if r != refs[0] {
          assert r in refs[1..];
        }
      }
    }
  }

  lemma {:induction false} SettledReferencesUnchanged(env: HostEnv, s: map<ClassId, seq<Decorator>>, refs: seq<DeclarationRef>)
    requires forall r :: r in refs ==> Settled(env, s, r)
    ensures MigrateReferences(env, s, refs) == s
    decreases |refs|
  {
    if refs != [] {
      assert refs[0] in refs;
      assert forall r :: r in refs[1..] ==> r in refs;
      SettledReferencesUnchanged(env, s, refs[1..]);
    }
  }

  /** Running the migration over the same providers a second time changes nothing: every
      class it decorated now carries `@Injectable()`. */
  lemma MigrateProvidersIdempotent(env: HostEnv, s: map<ClassId, seq<Decorator>>, value: ResolvedValue)
    ensures var once := MigrateReferences(env, s, ProviderReferences(value));
            MigrateReferences(env, once, ProviderReferences(value)) == once
  {
    MigrateReferencesSettles(env, s, ProviderReferences(value));
    SettledReferencesUnchanged(env, MigrateReferences(env, s, ProviderReferences(value)), ProviderReferences(value));
  }

  /** A class that already blocks the migration keeps its injected decorators. */
  lemma {:induction false} BlockedClassUnchanged(env: HostEnv, s: map<ClassId, seq<Decorator>>, refs: seq<DeclarationRef>, c: ClassId)
    requires !NeedsInjectableDecorator(env, s, c)
    ensures Injected(MigrateReferences(env, s, refs), c) == Injected(s, c)
    decreases |refs|
  {
    if refs != [] {
      var s1 := MigrateReference(env, s, refs[0]);
      MigrateReferenceSettles(env, s, refs[0]);
      SettledStays(env, s, s1, DeclarationRef(c, true));
      BlockedClassUnchanged(env, s1, refs[1..], c);
    }
  }

  /** Each class gets at most one synthetic `@Injectable()`, however often it is provided. */
  lemma {:induction false} InjectedAtMostOnce(env: HostEnv, s: map<ClassId, seq<Decorator>>, refs: seq<DeclarationRef>, c: ClassId)
    ensures var after := Injected(MigrateReferences(env, s, refs), c);
            after == Injected(s, c) || after == Injected(s, c) + [SyntheticDecorator("Injectable")]
    decreases |refs|
  {
    if refs != [] {
      var s1 := MigrateReference(env, s, refs[0]);
      if Injected(s1, c) == Injected(s, c) {
        InjectedAtMostOnce(env, s1, refs[1..], c);
      } else {
        MigrateReferenceSettles(env, s, refs[0]);
        assert refs[0].node == c;
        BlockedClassUnchanged(env, s1, refs[1..], c);
      }
    }
  }

  // ---------------------------------------------------------------- migrateLiteralProviders

  /** A provider literal with `provide` and none of `useClass`, `useValue`, `useExisting`
      and `useFactory`. */
  predicate NeedsUseValue(v: ResolvedValue) {
    && v.MapValue? && Has(v.entries, "provide")
    && !Has(v.entries, "useClass") && !Has(v.entries, "useValue")
    && !Has(v.entries, "useExisting") && !Has(v.entries, "useFactory")
  }

  function LiteralTransforms(literals: seq<ProviderLiteral>): (r: seq<Transform>)
    ensures |r| <= |literals|
  {
    if literals == [] then []
    else
      var last := literals[|literals| - 1];
      LiteralTransforms(literals[..|literals| - 1])
      + (if NeedsUseValue(last.resolvedValue) then [AppendUseValueUndefined(last.node)] else [])
  }

  /** A literal is rewritten exactly when it needs `useValue: undefined`. */
  lemma {:induction false} LiteralTransformsIff(literals: seq<ProviderLiteral>)
    ensures forall t :: t in LiteralTransforms(literals) <==>
              exists l :: l in literals && NeedsUseValue(l.resolvedValue) && t == AppendUseValueUndefined(l.node)
  {
    if literals != [] {
      var init := literals[..|literals| - 1];
      var last := literals[|literals| - 1];
      LiteralTransformsIff(init);
      assert literals == init + [last];
      forall t | t in LiteralTransforms(literals)
        ensures exists l :: l in literals && NeedsUseValue(l.resolvedValue) && t == AppendUseValueUndefined(l.node)
      {
        if t in LiteralTransforms(init) {
          var l :| l in init && NeedsUseValue(l.resolvedValue) && t == AppendUseValueUndefined(l.node);
          assert l in literals;
        } else {
          assert last in literals;
        }
      }
      forall l | l in literals && NeedsUseValue(l.resolvedValue)
        ensures AppendUseValueUndefined(l.node) in LiteralTransforms(literals)
      {
        if l in init {
          assert AppendUseValueUndefined(l.node) in LiteralTransforms(init);
        }
      }
    }
  }

  /** `migrateLiteralProviders` */
  method MigrateLiteralProviders(literals: seq<ProviderLiteral>, host: MigrationHost)
    modifies host`transforms
    ensures host.transforms == old(host.transforms) + LiteralTransforms(literals)
  {
    for k := 0 to |literals|
      invariant host.transforms == old(host.transforms) + LiteralTransforms(literals[..k])
    {
      assert literals[..k + 1][..k] == literals[..k];
      var literal := literals[k];
      if !NeedsUseValue(literal.resolvedValue) {
        continue;
      }
      host.AddTransform(AppendUseValueUndefined(literal.node));
    }
    assert literals[..|literals|] == literals;
  }

  // ---------------------------------------------------------------- decorator metadata

  /** The metadata object literal: a decorator called with exactly one object literal. */
  function MetadataOf(d: Decorator): (r: Option<seq<ObjectMember>>)
    ensures r.Some? <==> d.args.Some? && |d.args.value| == 1 && d.args.value[0].ObjectLiteral?
    ensures r.Some? ==> r.value == d.args.value[0].properties
  {
    if d.args.None? || |d.args.value| != 1 || !d.args.value[0].ObjectLiteral? then None
    else Some(d.args.value[0].properties)
  }

  /** A property assignment whose name reads as `name`. */
  predicate AssignmentNamed(m: ObjectMember, name: string) {
    m.PropertyAssignment? && PropertyNameText(m.name) == Some(name)
  }

  /** `properties[i]` is the first property assignment named `name`. */
  predicate FirstAssignmentAt(properties: seq<ObjectMember>, name: string, i: int) {
    && 0 <= i < |properties| && AssignmentNamed(properties[i], name)
    && forall k :: 0 <= k < i ==> !AssignmentNamed(properties[k], name)
  }

  /** The initializer of the first property assignment named `name`, as
      `properties.filter(ts.isPropertyAssignment).find(...)` finds it. */
  function FindProperty(properties: seq<ObjectMember>, name: string): (r: Option<ExprId>)
    ensures r.None? <==> forall i :: 0 <= i < |properties| ==> !AssignmentNamed(properties[i], name)
    ensures r.Some? ==> exists i :: FirstAssignmentAt(properties, name, i) && properties[i].initializer == r.value
  {
    if properties == [] then None
    else if AssignmentNamed(properties[0], name) then
      assert FirstAssignmentAt(properties, name, 0);
      Some(properties[0].initializer)
    else
      var rest := FindProperty(properties[1..], name);
      assert forall i :: 1 <= i < |properties| ==> properties[i] == properties[1..][i - 1];
      assert rest.Some? ==> exists i :: FirstAssignmentAt(properties, name, i) && properties[i].initializer == rest.value by {
        if rest.Some? {
          var j :| FirstAssignmentAt(properties[1..], name, j) && properties[1..][j].initializer == rest.value;
          assert FirstAssignmentAt(properties, name, j + 1);
        }
      }
      rest
  }

  /** The providers expressions a decorator's metadata names: `providers`, then, for a
      component, `viewProviders`. */
  function ProvidersExpressions(d: Decorator, isComponent: bool): (r: seq<ExprId>)
    ensures MetadataOf(d).None? ==> r == []
    ensures |r| <= if isComponent then 2 else 1
    // with metadata: one expression per property found, `providers` first
    ensures MetadataOf(d).Some? ==>
              |r| == (if FindProperty(MetadataOf(d).value, "providers").Some? then 1 else 0)
                     + (if isComponent && FindProperty(MetadataOf(d).value, "viewProviders").Some? then 1 else 0)
    ensures MetadataOf(d).Some? && FindProperty(MetadataOf(d).value, "providers").Some? ==>
              r[0] == FindProperty(MetadataOf(d).value, "providers").value
    ensures MetadataOf(d).Some? && isComponent && FindProperty(MetadataOf(d).value, "viewProviders").Some? ==>
              r[|r| - 1] == FindProperty(MetadataOf(d).value, "viewProviders").value
    ensures forall e :: e in r ==>
              Some(e) == FindProperty(MetadataOf(d).value, "providers")
              || (isComponent && Some(e) == FindProperty(MetadataOf(d).value, "viewProviders"))
  {
    match MetadataOf(d)
    case None => []
    case Some(properties) =>
      var providers := FindProperty(properties, "providers");
      var viewProviders := FindProperty(properties, "viewProviders");
      (if providers.Some? then [providers.value] else [])
      + (if isComponent && viewProviders.Some? then [viewProviders.value] else [])
  }

  /** What a providers expression evaluates to: literal rewrites and references to migrate. */
  function ExpressionsTransforms(evaluate: Evaluator, exprs: seq<ExprId>): seq<Transform> {
    if exprs == [] then []
    else ExpressionsTransforms(evaluate, exprs[..|exprs| - 1]) + LiteralTransforms(evaluate(exprs[|exprs| - 1]).literals)
  }

  function ExpressionsReferences(evaluate: Evaluator, exprs: seq<ExprId>): seq<DeclarationRef> {
    if exprs == [] then []
    else ExpressionsReferences(evaluate, exprs[..|exprs| - 1]) + ProviderReferences(evaluate(exprs[|exprs| - 1]).resolvedValue)
  }

  /** Both halves of one step over a list of expressions. */
  lemma ExpressionsStep(evaluate: Evaluator, exprs: seq<ExprId>, k: nat)
    requires k < |exprs|
    ensures ExpressionsTransforms(evaluate, exprs[..k + 1])
            == ExpressionsTransforms(evaluate, exprs[..k]) + LiteralTransforms(evaluate(exprs[k]).literals)
    ensures ExpressionsReferences(evaluate, exprs[..k + 1])
            == ExpressionsReferences(evaluate, exprs[..k]) + ProviderReferences(evaluate(exprs[k]).resolvedValue)
  {
    assert exprs[..k + 1][..k] == exprs[..k];
  }

  /** The host state after migrating `exprs` from `synthetic` and `transforms`. */
  ghost predicate MigratedExpressions(host: MigrationHost, evaluate: Evaluator, exprs: seq<ExprId>,
                                      synthetic: map<ClassId, seq<Decorator>>, transforms: seq<Transform>)
    reads host
  {
    && host.synthetic == MigrateReferences(host.env, synthetic, ExpressionsReferences(evaluate, exprs))
    && host.transforms == transforms + ExpressionsTransforms(evaluate, exprs)
  }

  /** The shared body of `migrateNgModuleProviders` and `migrateDirectiveProviders`: for each
      expression, its literal providers, then its resolved value. */
  method MigrateExpressions(exprs: seq<ExprId>, evaluate: Evaluator, host: MigrationHost)
    modifies host`synthetic, host`transforms
    ensures MigratedExpressions(host, evaluate, exprs, old(host.synthetic), old(host.transforms))
  {
    for k := 0 to |exprs|
      invariant MigratedExpressions(host, evaluate, exprs[..k], old(host.synthetic), old(host.transforms))
    {
      var evaluation := evaluate(exprs[k]);
      ExpressionsStep(evaluate, exprs, k);
      MigrateReferencesConcat(host.env, old(host.synthetic), ExpressionsReferences(evaluate, exprs[..k]),
                              ProviderReferences(evaluation.resolvedValue));
      MigrationResults.ConcatAssociative(old(host.transforms), ExpressionsTransforms(evaluate, exprs[..k]),
                                         LiteralTransforms(evaluation.literals));
      MigrateLiteralProviders(evaluation.literals, host);
      MigrateProviders(evaluation.resolvedValue, host);
    }
    assert exprs[..|exprs|] == exprs;
  }

  /** `migrateNgModuleProviders` (`isComponent` false) and `migrateDirectiveProviders`. */
  method MigrateDecoratorProviders(d: Decorator, isComponent: bool, evaluate: Evaluator, host: MigrationHost)
    modifies host`synthetic, host`transforms
    ensures MigratedExpressions(host, evaluate, ProvidersExpressions(d, isComponent), old(host.synthetic), old(host.transforms))
  {
    var metadata := MetadataOf(d);
    if metadata.None? {
      return;
    }
    MigrateExpressions(ProvidersExpressions(d, isComponent), evaluate, host);
  }

  // ---------------------------------------------------------------- apply

  /** The providers expressions `apply` visits for one decorator of the class. */
  function DecoratorExpressions(d: Decorator): (r: seq<ExprId>)
    ensures AngularCoreDecoratorName(d) !in {Some("NgModule"), Some("Directive"), Some("Component")} ==> r == []
    // an NgModule or Directive contributes its `providers`, a Component also its `viewProviders`
    ensures AngularCoreDecoratorName(d) in {Some("NgModule"), Some("Directive")} ==> r == ProvidersExpressions(d, false)
    ensures AngularCoreDecoratorName(d) == Some("Component") ==> r == ProvidersExpressions(d, true)
  {
    var name := AngularCoreDecoratorName(d);
    if name == Some("NgModule") || name == Some("Directive") then ProvidersExpressions(d, false)
    else if name == Some("Component") then ProvidersExpressions(d, true)
    else []
  }

  function ApplyExpressions(decorators: seq<Decorator>): seq<ExprId> {
    if decorators == [] then []
    else ApplyExpressions(decorators[..|decorators| - 1]) + DecoratorExpressions(decorators[|decorators| - 1])
  }

  lemma {:induction false} TransformsConcat(evaluate: Evaluator, a: seq<ExprId>, b: seq<ExprId>)
    ensures ExpressionsTransforms(evaluate, a + b) == ExpressionsTransforms(evaluate, a) + ExpressionsTransforms(evaluate, b)
    decreases |b|
  {
    if b == [] {
      assert a + b == a;
    } else {
      var init := b[..|b| - 1];
      var last := b[|b| - 1];
      assert (a + b)[..|a + b| - 1] == a + init;
      TransformsConcat(evaluate, a, init);
      MigrationResults.ConcatAssociative(ExpressionsTransforms(evaluate, a), ExpressionsTransforms(evaluate, init),
                                         LiteralTransforms(evaluate(last).literals));
    }
  }

  lemma {:induction false} ReferencesConcat(evaluate: Evaluator, a: seq<ExprId>, b: seq<ExprId>)
    ensures ExpressionsReferences(evaluate, a + b) == ExpressionsReferences(evaluate, a) + ExpressionsReferences(evaluate, b)
    decreases |b|
  {
    if b == [] {
      assert a + b == a;
    } else {
      var init := b[..|b| - 1];
      var last := b[|b| - 1];
      assert (a + b)[..|a + b| - 1] == a + init;
      ReferencesConcat(evaluate, a, init);
      MigrationResults.ConcatAssociative(ExpressionsReferences(evaluate, a), ExpressionsReferences(evaluate, init),
                                         ProviderReferences(evaluate(last).resolvedValue));
    }
  }

  /** Migrating `a` and then `b` is migrating `a + b`. */
  lemma MigratedCompose(env: HostEnv, evaluate: Evaluator, synthetic: map<ClassId, seq<Decorator>>, transforms: seq<Transform>,
                        a: seq<ExprId>, b: seq<ExprId>)
    ensures MigrateReferences(env, MigrateReferences(env, synthetic, ExpressionsReferences(evaluate, a)), ExpressionsReferences(evaluate, b))
            == MigrateReferences(env, synthetic, ExpressionsReferences(evaluate, a + b))
    ensures transforms + ExpressionsTransforms(evaluate, a) + ExpressionsTransforms(evaluate, b)
            == transforms + ExpressionsTransforms(evaluate, a + b)
  {
    TransformsConcat(evaluate, a, b);
    ReferencesConcat(evaluate, a, b);
    MigrateReferencesConcat(env, synthetic, ExpressionsReferences(evaluate, a), ExpressionsReferences(evaluate, b));
    MigrationResults.ConcatAssociative(transforms, ExpressionsTransforms(evaluate, a), ExpressionsTransforms(evaluate, b));
  }

  /** One decorator of `apply`'s loop. */
  method MigrateDecorator(d: Decorator, evaluate: Evaluator, host: MigrationHost)
    modifies host`synthetic, host`transforms
    ensures MigratedExpressions(host, evaluate, DecoratorExpressions(d), old(host.synthetic), old(host.transforms))
  {
    var name := AngularCoreDecoratorName(d);
    if name == Some("NgModule") {
      MigrateDecoratorProviders(d, false, evaluate, host);
    } else if name == Some("Directive") {
      MigrateDecoratorProviders(d, false, evaluate, host);
    } else if name == Some("Component") {
      MigrateDecoratorProviders(d, true, evaluate, host);
    } else {
      assert ExpressionsTransforms(evaluate, []) == [] && ExpressionsReferences(evaluate, []) == [];
      assert old(host.transforms) + [] == old(host.transforms);
    }
  }

  /** `MissingInjectableMigration.apply`: every NgModule, Directive and Component decorator
      declared on the class has its providers migrated, in order; nothing is reported. */
  method Apply(clazz: ClassId, evaluate: Evaluator, host: MigrationHost)
    modifies host`synthetic, host`transforms
    ensures var exprs := if host.env.decoratorsOf(clazz).Some? then ApplyExpressions(host.env.decoratorsOf(clazz).value) else [];
            MigratedExpressions(host, evaluate, exprs, old(host.synthetic), old(host.transforms))
  {
    var decorators := host.env.decoratorsOf(clazz);
    if decorators.None? {
      return;
    }
    var ds := decorators.value;
    for k := 0 to |ds|
      invariant MigratedExpressions(host, evaluate, ApplyExpressions(ds[..k]), old(host.synthetic), old(host.transforms))
    {
      assert ds[..k + 1][..k] == ds[..k];
      MigratedCompose(host.env, evaluate, old(host.synthetic), old(host.transforms), ApplyExpressions(ds[..k]), DecoratorExpressions(ds[k]));
      MigrateDecorator(ds[k], evaluate, host);
    }
    assert ds[..|ds|] == ds;
  }
}
