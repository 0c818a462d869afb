/** What ngcc's migrations see of the code they migrate and of the `MigrationHost` they
    change: decorators, class members, and the host's synthetic decorators and output
    transforms. The host itself (ngcc/src/migrations/migration.ts and its implementation)
    is not part of this model; its effects are stated here as two state updates. */
module NgccMigrationHost {
  import opened Wrappers

  type ClassId = nat
  /** A TypeScript expression node. */
  type ExprId = nat

  /** `Import`: the name a decorator is imported under, and the module it comes from. */
  datatype Import = Import(name: string, from: string)

  /** A property name: `ts.isIdentifier` or `ts.isStringLiteralLike` give their text; any
      other (computed, numeric) name has none. */
  datatype PropertyName = IdentifierName(text: string) | StringLiteralName(text: string) | OtherName

  datatype ObjectMember = PropertyAssignment(name: PropertyName, initializer: ExprId) | OtherMember

  /** A decorator argument: an object literal with its members, or anything else. */
  datatype Expression = ObjectLiteral(properties: seq<ObjectMember>) | OtherExpression

  /** `Decorator`: its name, its import when it has one, and its arguments (`null` for a
      decorator that is not called). */
  datatype Decorator = Decorator(name: string, imported: Option<Import>, args: Option<seq<Expression>>)

  const AngularCore := "@angular/core"

  /** `createInjectableDecorator` / `createDirectiveDecorator` (ngcc/src/migrations/utils.ts,
      not part of this model): a called decorator without arguments, imported from
      `@angular/core`. */
  function SyntheticDecorator(name: string): (d: Decorator)
    ensures d.imported == Some(Import(name, AngularCore)) && d.args == Some([])
  {
    Decorator(name, Some(Import(name, AngularCore)), Some([]))
  }

  /** `isAngularDecorator(decorator, name, isCore)` (ngtsc/annotations/src/util.ts, not part
      of this model): imported as `name` from `@angular/core`, or, while compiling
      `@angular/core` itself, called `name`. */
  predicate IsAngularDecorator(d: Decorator, name: string, isCore: bool) {
    if isCore then d.name == name else d.imported.Some? && d.imported.value.from == AngularCore && d.imported.value.name == name
  }

  datatype ClassMemberKind = Constructor | Getter | Setter | Property | Method

  /** `ClassMember`: its name, kind, whether it is static, and its decorators when it has any. */
  datatype ClassMember = ClassMember(name: string, kind: ClassMemberKind, isStatic: bool, decorators: Option<seq<Decorator>>)

  /** The node of an object literal the migration may rewrite, in its file. */
  datatype LiteralNode = LiteralNode(id: ExprId, fileName: string, start: nat, end: nat)

  /** An output transform: the literal's text `[start, end)` is replaced by the literal with
      `useValue: undefined` appended to its properties. */
  datatype Transform = AppendUseValueUndefined(literal: LiteralNode)

  /** The reflection host and the host's queries. */
  datatype HostEnv = HostEnv(
    decoratorsOf: ClassId -> Option<seq<Decorator>>,
    membersOf: ClassId -> seq<ClassMember>,
    inScope: ClassId -> bool,
    hasDirectiveDecorator: ClassId -> bool,
    isCore: bool)

  /** The synthetic decorators injected so far for `c`. */
  function Injected(synthetic: map<ClassId, seq<Decorator>>, c: ClassId): seq<Decorator> {
    if c in synthetic then synthetic[c] else []
  }

  /** `host.getAllDecorators(clazz)`: the declared decorators followed by the injected
      ones; `null` only for a class with neither. */
  function AllDecorators(env: HostEnv, synthetic: map<ClassId, seq<Decorator>>, c: ClassId): (r: Option<seq<Decorator>>)
    ensures r.None? <==> env.decoratorsOf(c).None? && Injected(synthetic, c) == []
    ensures r.Some? ==> forall d :: d in Injected(synthetic, c) ==> d in r.value
  {
    match env.decoratorsOf(c)
    case Some(ds) => Some(ds + Injected(synthetic, c))
    case None => if Injected(synthetic, c) == [] then None else Some(Injected(synthetic, c))
  }

  class MigrationHost {
    const env: HostEnv
    var synthetic: map<ClassId, seq<Decorator>>
    var transforms: seq<Transform>

    constructor(env: HostEnv)
      ensures this.env == env && synthetic == map[] && transforms == []
    {
      this.env := env;
      synthetic := map[];
      transforms := [];
    }

    /** `injectSyntheticDecorator(clazz, decorator)` */
    method InjectSyntheticDecorator(c: ClassId, d: Decorator)
      modifies this`synthetic
      ensures synthetic == old(synthetic)[c := Injected(old(synthetic), c) + [d]]
    {
      synthetic := synthetic[c := Injected(synthetic, c) + [d]];
    }

    /** `addTransform(sourceFile, transform)` */
    method AddTransform(t: Transform)
      modifies this`transforms
      ensures transforms == old(transforms) + [t]
    {
      transforms := transforms + [t];
    }
  }
}
