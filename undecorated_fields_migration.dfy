/** ngcc's `UndecoratedClassWithDecoratedFieldsMigration`
    (ngcc/src/migrations/undecorated_class_with_decorated_fields_migration.ts): a class
    without a directive decorator that has a lifecycle hook or an Angular field decorator
    gets a synthetic abstract `@Directive()`. */
module UndecoratedFieldsMigration {
  import opened Wrappers
  import opened NgccMigrationHost

  const FieldDecorators: seq<string> :=
    ["Input", "Output", "ViewChild", "ViewChildren", "ContentChild", "ContentChildren", "HostBinding", "HostListener"]

  const LifecycleHooks: set<string> :=
    {"ngOnChanges", "ngOnInit", "ngOnDestroy", "ngDoCheck", "ngAfterViewInit", "ngAfterViewChecked",
     "ngAfterContentInit", "ngAfterContentChecked"}

  /** `FIELD_DECORATORS.some(name => isAngularDecorator(decorator, name, isCore))` */
  predicate IsFieldDecorator(d: Decorator, isCore: bool) {
    exists i :: 0 <= i < |FieldDecorators| && IsAngularDecorator(d, FieldDecorators[i], isCore)
  }

  /** The callback of `getMembersOfClass(clazz).some(...)`: a non-static lifecycle-hook
      method, or a member with an Angular field decorator. */
  predicate HasAngularFeature(m: ClassMember, isCore: bool) {
    if !m.isStatic && m.kind == Method && m.name in LifecycleHooks then true
    else if m.decorators.Some? then exists i :: 0 <= i < |m.decorators.value| && IsFieldDecorator(m.decorators.value[i], isCore)
    else false
  }

  /** `_isUndecoratedClassWithDecoratedFields` */
  function IsUndecoratedClassWithDecoratedFields(env: HostEnv, c: ClassId): (r: bool)
    ensures r <==> !env.hasDirectiveDecorator(c)
                   && exists i :: 0 <= i < |env.membersOf(c)| && HasAngularFeature(env.membersOf(c)[i], env.isCore)
  {
    if env.hasDirectiveDecorator(c) then false
    else exists i :: 0 <= i < |env.membersOf(c)| && HasAngularFeature(env.membersOf(c)[i], env.isCore)
  }

  /** `apply`: at most one synthetic `@Directive()`, and only for such a class. */
  method Apply(c: ClassId, host: MigrationHost)
    modifies host`synthetic
    ensures host.synthetic == if IsUndecoratedClassWithDecoratedFields(host.env, c)
                              then old(host.synthetic)[c := Injected(old(host.synthetic), c) + [SyntheticDecorator("Directive")]]
                              else old(host.synthetic)
  {
    if IsUndecoratedClassWithDecoratedFields(host.env, c) {
      host.InjectSyntheticDecorator(c, SyntheticDecorator("Directive"));
    }
  }

  /** A non-static method named after one of the eight lifecycle hooks makes a class without
      a directive decorator a candidate, whatever its decorators. */
  lemma LifecycleHookMigrates(env: HostEnv, c: ClassId, i: nat)
    requires !env.hasDirectiveDecorator(c) && i < |env.membersOf(c)|
    requires var m := env.membersOf(c)[i]; !m.isStatic && m.kind == Method && m.name in LifecycleHooks
    ensures IsUndecoratedClassWithDecoratedFields(env, c)
  {
    assert HasAngularFeature(env.membersOf(c)[i], env.isCore);
  }

  /** An Angular field decorator (imported from `@angular/core`) on any member makes a class
      without a directive decorator a candidate. */
  lemma FieldDecoratorMigrates(env: HostEnv, c: ClassId, i: nat, j: nat, k: nat)
    requires !env.hasDirectiveDecorator(c) && !env.isCore && i < |env.membersOf(c)|
    requires var m := env.membersOf(c)[i];
             m.decorators.Some? && j < |m.decorators.value| && k < |FieldDecorators|
             && m.decorators.value[j].imported == Some(Import(FieldDecorators[k], AngularCore))
    ensures IsUndecoratedClassWithDecoratedFields(env, c)
  {
    var m := env.membersOf(c)[i];
    assert IsFieldDecorator(m.decorators.value[j], env.isCore);
    assert HasAngularFeature(m, env.isCore);
  }

  /** A static lifecycle-hook method, a hook name on a non-method, and decorators that are
      not Angular field decorators do not make a class a candidate. */
  lemma FeaturelessClassNotMigrated(env: HostEnv, c: ClassId)
    requires forall i :: 0 <= i < |env.membersOf(c)| ==>
               var m := env.membersOf(c)[i];
               && (m.isStatic || m.kind != Method || m.name !in LifecycleHooks)
               && (m.decorators.Some? ==> forall j :: 0 <= j < |m.decorators.value| ==> !IsFieldDecorator(m.decorators.value[j], env.isCore))
    ensures !IsUndecoratedClassWithDecoratedFields(env, c)
  {
  }
}
