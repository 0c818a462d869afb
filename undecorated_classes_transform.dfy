/** The `undecorated-classes-with-decorated-fields` schematic's transform
    (core/schematics/migrations/undecorated-classes-with-decorated-fields/transform.ts):
    undecorated classes that use Angular features, or that inherit from an abstract
    directive, get an abstract `@Directive()`. */
module UndecoratedClassesTransform {
  import opened Wrappers

  type ClassId = nat
  type ExprId = nat

  const LifecycleHooks: set<string> :=
    {"ngOnChanges", "ngOnInit", "ngOnDestroy", "ngDoCheck", "ngAfterViewInit", "ngAfterViewChecked",
     "ngAfterContentInit", "ngAfterContentChecked"}

  /** The first decorator argument after `unwrapExpression`: an object literal, read as
      `reflectObjectLiteral` reads it (property name to initializer), or anything else. */
  datatype MetadataArgument = ObjectLiteralArgument(properties: map<string, ExprId>) | OtherArgument

  /** An `NgDecorator` as `getAngularDecorators` returns it: its name and its call's arguments. */
  datatype NgDecorator = NgDecorator(name: string, args: seq<MetadataArgument>)

  /** A class member: the text of its name (`getPropertyNameText`, when it has one) and the
      number of Angular decorators on it (`none` when it has no decorators at all). */
  datatype Member = Member(propertyName: Option<string>, angularDecorators: Option<nat>)

  /** A class declaration: its Angular decorators (`none` when it has no decorators) and
      its members. */
  datatype ClassDeclaration = ClassDeclaration(ngDecorators: Option<seq<NgDecorator>>, members: seq<Member>)

  /** What the transform asks of the type checker: each class, its base classes as
      `findBaseClassDeclarations` lists them (nearest first), and whether the partial
      evaluator makes a `selector` expression `null` or `undefined`. */
  datatype Program = Program(
    classes: ClassId -> ClassDeclaration,
    baseClasses: ClassId -> seq<ClassId>,
    evaluatesToNullish: ExprId -> bool)

  datatype AnalyzedClass = AnalyzedClass(isDirectiveOrComponent: bool, isAbstractDirective: bool, usesAngularFeatures: bool)

  // ---------------------------------------------------------------- analysis

  /** `_isAbstractDirective`: no argument, or an object literal whose `selector` evaluates
      to `null` or `undefined`. */
  function IsAbstractDirective(p: Program, d: NgDecorator): (r: bool)
    ensures |d.args| == 0 ==> r
    ensures |d.args| > 0 && (d.args[0].OtherArgument? || "selector" !in d.args[0].properties) ==> !r
    ensures |d.args| > 0 && d.args[0].ObjectLiteralArgument? && "selector" in d.args[0].properties ==>
              (r <==> p.evaluatesToNullish(d.args[0].properties["selector"]))
  {
    if |d.args| == 0 then true
    else match d.args[0]
      case OtherArgument => false
      case ObjectLiteralArgument(metadata) =>
        if "selector" !in metadata then false
        else p.evaluatesToNullish(metadata["selector"])
  }

  /** One member in `_hasAngularFeatureMember`'s `some`. */
  predicate IsAngularFeatureMember(m: Member) {
    if m.propertyName.Some? && m.propertyName.value in LifecycleHooks then true
    else m.angularDecorators.Some? && m.angularDecorators.value != 0
  }

  /** `_hasAngularFeatureMember` */
  predicate HasAngularFeatureMember(c: ClassDeclaration) {
    exists i :: 0 <= i < |c.members| && IsAngularFeatureMember(c.members[i])
  }

  /** The first decorator named `name`. */
  function FindDecorator(ds: seq<NgDecorator>, name: string): (r: Option<NgDecorator>)
    ensures r.None? <==> forall i :: 0 <= i < |ds| ==> ds[i].name != name
    ensures r.Some? ==> r.value.name == name && r.value in ds
    ensures r.Some? ==> exists i :: 0 <= i < |ds| && ds[i] == r.value && forall k :: 0 <= k < i ==> ds[k].name != name
  {
    if ds == [] then None
    else if ds[0].name == name then Some(ds[0])
    else
      var rest := FindDecorator(ds[1..], name);
      assert forall i :: 1 <= i < |ds| ==> ds[i] == ds[1..][i - 1];
      assert rest.Some? ==> exists i :: 0 <= i < |ds| && ds[i] == rest.value && forall k :: 0 <= k < i ==> ds[k].name != name by {
        if rest.Some? {
          var j :| 0 <= j < |ds[1..]| && ds[1..][j] == rest.value && forall k :: 0 <= k < j ==> ds[1..][k].name != name;
          assert ds[j + 1] == rest.value;
        }
      }
      rest
  }

  /** `_analyzeClassDeclaration` */
  function AnalyzeClass(p: Program, c: ClassDeclaration): (r: AnalyzedClass)
    ensures r.usesAngularFeatures == HasAngularFeatureMember(c)
    ensures r.isDirectiveOrComponent <==> (c.ngDecorators.Some?
              && exists i :: 0 <= i < |c.ngDecorators.value| && c.ngDecorators.value[i].name in {"Directive", "Component"})
    ensures r.isAbstractDirective ==> r.isDirectiveOrComponent
    ensures r.isAbstractDirective <==> c.ngDecorators.Some? && FindDecorator(c.ngDecorators.value, "Directive").Some?
                                       && IsAbstractDirective(p, FindDecorator(c.ngDecorators.value, "Directive").value)
  {
    var usesAngularFeatures := HasAngularFeatureMember(c);
    if c.ngDecorators.None? || |c.ngDecorators.value| == 0 then
      AnalyzedClass(false, false, usesAngularFeatures)
    else
      var directiveDecorator := FindDecorator(c.ngDecorators.value, "Directive");
      var componentDecorator := FindDecorator(c.ngDecorators.value, "Component");
      var isAbstractDirective := directiveDecorator.Some? && IsAbstractDirective(p, directiveDecorator.value);
      AnalyzedClass(directiveDecorator.Some? || componentDecorator.Some?, isAbstractDirective, usesAngularFeatures)
  }

  /** A class with only a `@Component` decorator is a non-abstract directive. */
  lemma ComponentIsNonAbstract(p: Program, c: ClassDeclaration)
    requires c.ngDecorators.Some? && FindDecorator(c.ngDecorators.value, "Component").Some?
    requires FindDecorator(c.ngDecorators.value, "Directive").None?
    ensures AnalyzeClass(p, c).isDirectiveOrComponent && !AnalyzeClass(p, c).isAbstractDirective
  {
  }

  // ---------------------------------------------------------------- _findUndecoratedAbstractDirectives

  /** How the visitor files a class. */
  datatype Classification = NonAbstractDirective | AbstractDirective | UsesFeatures | Undecorated

  function Classify(p: Program, c: ClassId): Classification {
    var a := AnalyzeClass(p, p.classes(c));
    if a.isDirectiveOrComponent then (if a.isAbstractDirective then AbstractDirective else NonAbstractDirective)
    else if a.usesAngularFeatures then UsesFeatures
    else Undecorated
  }

  /** `Set.add` on an insertion-ordered set. */
  function Add(s: seq<ClassId>, c: ClassId): (r: seq<ClassId>)
    ensures c in r && forall x :: x in r <==> x in s || x == c
  {
    if c in s then s else s + [c]
  }

  predicate Distinct(s: seq<ClassId>) {
    forall i, j :: 0 <= i < j < |s| ==> s[i] != s[j]
  }

  lemma AddKeepsDistinct(s: seq<ClassId>, c: ClassId)
    requires Distinct(s)
    ensures Distinct(Add(s, c))
  {
  }

  /** The sets the visitor fills, over the classes in the order it meets them. */
  datatype Collected = Collected(
    result: seq<ClassId>,
    undecoratedClasses: seq<ClassId>,
    nonAbstractDirectives: set<ClassId>,
    abstractDirectives: set<ClassId>)

  /** `visitNode` on one class declaration. */
  function Visit(p: Program, acc: Collected, c: ClassId): Collected {
    match Classify(p, c)
    case AbstractDirective => acc.(abstractDirectives := acc.abstractDirectives + {c})
    case NonAbstractDirective => acc.(nonAbstractDirectives := acc.nonAbstractDirectives + {c})
    case UsesFeatures => acc.(abstractDirectives := acc.abstractDirectives + {c}, result := Add(acc.result, c))
    case Undecorated => acc.(undecoratedClasses := Add(acc.undecoratedClasses, c))
  }

  function Collect(p: Program, classes: seq<ClassId>): Collected {
    if classes == [] then Collected([], [], {}, {})
    else Visit(p, Collect(p, classes[..|classes| - 1]), classes[|classes| - 1])
  }

  /** One class is filed in the set its classification names, and nowhere else. */
  lemma VisitFiles(p: Program, acc: Collected, c: ClassId)
    requires Distinct(acc.result)
    ensures var v := Visit(p, acc, c);
            && (forall x :: x in v.abstractDirectives <==> x in acc.abstractDirectives || (x == c && Classify(p, c) in {AbstractDirective, UsesFeatures}))
            && (forall x :: x in v.nonAbstractDirectives <==> x in acc.nonAbstractDirectives || (x == c && Classify(p, c) == NonAbstractDirective))
            && (forall x :: x in v.result <==> x in acc.result || (x == c && Classify(p, c) == UsesFeatures))
            && (forall x :: x in v.undecoratedClasses <==> x in acc.undecoratedClasses || (x == c && Classify(p, c) == Undecorated))
            && Distinct(v.result)
  {
    AddKeepsDistinct(acc.result, c);
  }

  /** The sets hold exactly the classes met, each by its classification. */
  lemma {:induction false} CollectMembers(p: Program, classes: seq<ClassId>)
    ensures var acc := Collect(p, classes);
            && (forall c :: c in acc.abstractDirectives <==> c in classes && Classify(p, c) in {AbstractDirective, UsesFeatures})
            && (forall c :: c in acc.nonAbstractDirectives <==> c in classes && Classify(p, c) == NonAbstractDirective)
            && (forall c :: c in acc.result <==> c in classes && Classify(p, c) == UsesFeatures)
            && (forall c :: c in acc.undecoratedClasses <==> c in classes && Classify(p, c) == Undecorated)
            && Distinct(acc.result)
  {
    if classes != [] {
      var init := classes[..|classes| - 1];
      var last := classes[|classes| - 1];
      CollectMembers(p, init);
      assert classes == init + [last];
      VisitFiles(p, Collect(p, init), last);
    }
  }

  /** The base-class search: whether the first base that is a known directive is abstract;
      `none` when no base is one. */
  function FirstDirectiveBase(bases: seq<ClassId>, nonAbstract: set<ClassId>, abstracts: set<ClassId>): (r: Option<bool>)
    ensures r.None? <==> forall i :: 0 <= i < |bases| ==> bases[i] !in nonAbstract && bases[i] !in abstracts
  {
    if bases == [] then None
    else if bases[0] in nonAbstract then Some(false)
    else if bases[0] in abstracts then Some(true)
    else
      var rest := FirstDirectiveBase(bases[1..], nonAbstract, abstracts);
      assert forall i :: 1 <= i < |bases| ==> bases[i] == bases[1..][i - 1];
      rest
  }

  /** The first base that is a known directive decides, whatever the bases after it: the
      class is migrated when that base is abstract, and not when it is non-abstract. */
  lemma {:induction false} FirstDirectiveBaseDecides(bases: seq<ClassId>, nonAbstract: set<ClassId>, abstracts: set<ClassId>, i: nat)
    requires i < |bases| && (bases[i] in nonAbstract || bases[i] in abstracts)
    requires forall j :: 0 <= j < i ==> bases[j] !in nonAbstract && bases[j] !in abstracts
    ensures FirstDirectiveBase(bases, nonAbstract, abstracts) == Some(bases[i] !in nonAbstract)
  {
    if i > 0 {
      assert bases[0] !in nonAbstract && bases[0] !in abstracts;
      FirstDirectiveBaseDecides(bases[1..], nonAbstract, abstracts, i - 1);
    }
  }

  /** The second loop: each undecorated class whose first directive base is abstract. */
  function AddInheriting(p: Program, result: seq<ClassId>, undecorated: seq<ClassId>,
                         nonAbstract: set<ClassId>, abstracts: set<ClassId>): seq<ClassId>
  {
    if undecorated == [] then result
    else
      var before := AddInheriting(p, result, undecorated[..|undecorated| - 1], nonAbstract, abstracts);
      var node := undecorated[|undecorated| - 1];
      if FirstDirectiveBase(p.baseClasses(node), nonAbstract, abstracts) == Some(true) then Add(before, node) else before
  }

  function UndecoratedAbstractDirectives(p: Program, classes: seq<ClassId>): seq<ClassId> {
    var acc := Collect(p, classes);
    AddInheriting(p, acc.result, acc.undecoratedClasses, acc.nonAbstractDirectives, acc.abstractDirectives)
  }

  lemma {:induction false} AddInheritingMembers(p: Program, result: seq<ClassId>, undecorated: seq<ClassId>,
                                               nonAbstract: set<ClassId>, abstracts: set<ClassId>)
    requires Distinct(result)
    ensures var r := AddInheriting(p, result, undecorated, nonAbstract, abstracts);
            && Distinct(r)
            && forall c :: c in r <==> (c in result
                                  || (c in undecorated && FirstDirectiveBase(p.baseClasses(c), nonAbstract, abstracts) == Some(true)))
  {
    if undecorated != [] {
      var init := undecorated[..|undecorated| - 1];
      var node := undecorated[|undecorated| - 1];
      AddInheritingMembers(p, result, init, nonAbstract, abstracts);
      assert undecorated == init + [node];
      var before := AddInheriting(p, result, init, nonAbstract, abstracts);
      AddKeepsDistinct(before, node);
    }
  }

  /** A class met by the visitor is migrated exactly when it is not a directive or component
      and either uses Angular features, or the first of its bases that is a known directive
      is an abstract one (a non-abstract directive stops the search). Each is listed once. */
  lemma MigratedClassesIff(p: Program, classes: seq<ClassId>, c: ClassId)
    ensures Distinct(UndecoratedAbstractDirectives(p, classes))
    ensures var acc := Collect(p, classes);
            c in UndecoratedAbstractDirectives(p, classes)
            <==> c in classes && !AnalyzeClass(p, p.classes(c)).isDirectiveOrComponent
                 && (AnalyzeClass(p, p.classes(c)).usesAngularFeatures
                     || FirstDirectiveBase(p.baseClasses(c), acc.nonAbstractDirectives, acc.abstractDirectives) == Some(true))
  {
    CollectMembers(p, classes);
    var acc := Collect(p, classes);
    AddInheritingMembers(p, acc.result, acc.undecoratedClasses, acc.nonAbstractDirectives, acc.abstractDirectives);
  }

  /** The visitor: `classes` are the class declarations in the order `visitNode` meets them. */
  method CollectClasses(p: Program, classes: seq<ClassId>) returns (acc: Collected)
    ensures acc == Collect(p, classes)
  {
    var result: seq<ClassId> := [];
    var undecoratedClasses: seq<ClassId> := [];
    var nonAbstractDirectives: set<ClassId> := {};
    var abstractDirectives: set<ClassId> := {};
    for k := 0 to |classes|
      invariant Collected(result, undecoratedClasses, nonAbstractDirectives, abstractDirectives) == Collect(p, classes[..k])
    {
      assert classes[..k + 1][..k] == classes[..k];
      var node := classes[k];
      var analyzed := AnalyzeClass(p, p.classes(node));
      if analyzed.isDirectiveOrComponent {
        if analyzed.isAbstractDirective {
          abstractDirectives := abstractDirectives + {node};
        } else {
          nonAbstractDirectives := nonAbstractDirectives + {node};
        }
      } else if analyzed.usesAngularFeatures {
        abstractDirectives := abstractDirectives + {node};
        result := Add(result, node);
      } else {
        undecoratedClasses := Add(undecoratedClasses, node);
      }
    }
    assert classes[..|classes|] == classes;
    acc := Collected(result, undecoratedClasses, nonAbstractDirectives, abstractDirectives);
  }

  /** The `for ... of findBaseClassDeclarations(node)` loop with its two `break`s. */
  method SearchBases(bases: seq<ClassId>, nonAbstract: set<ClassId>, abstracts: set<ClassId>) returns (inherits: bool)
    ensures inherits <==> FirstDirectiveBase(bases, nonAbstract, abstracts) == Some(true)
  {
    inherits := false;
    for k := 0 to |bases|
      invariant FirstDirectiveBase(bases, nonAbstract, abstracts) == FirstDirectiveBase(bases[k..], nonAbstract, abstracts)
      invariant !inherits
    {
      assert bases[k..][1..] == bases[k + 1..];
      var baseClass := bases[k];
      if baseClass in nonAbstract {
        return;
      } else if baseClass in abstracts {
        inherits := true;
        return;
      }
    }
  }

  /** `_findUndecoratedAbstractDirectives` */
  method FindUndecoratedAbstractDirectives(p: Program, classes: seq<ClassId>) returns (result: seq<ClassId>)
    ensures result == UndecoratedAbstractDirectives(p, classes)
  {
    var acc := CollectClasses(p, classes);
    result := acc.result;
    var undecorated := acc.undecoratedClasses;
    for k := 0 to |undecorated|
      invariant result == AddInheriting(p, acc.result, undecorated[..k], acc.nonAbstractDirectives, acc.abstractDirectives)
    {
      assert undecorated[..k + 1][..k] == undecorated[..k];
      var node := undecorated[k];
      var inherits := SearchBases(p.baseClasses(node), acc.nonAbstractDirectives, acc.abstractDirectives);
      if inherits {
        result := Add(result, node);
      }
    }
    assert undecorated[..|undecorated|] == undecorated;
  }

  // ---------------------------------------------------------------- migrate

  /** `recorder.addClassDecorator(node, '@' + directiveExpr + '()')`: an argument-less
      `@Directive()` call on the class, through the identifier the import manager gives
      for `Directive` from `@angular/core` in the class's file. */
  datatype ClassDecoratorEdit = AddDirectiveDecorator(cls: ClassId, directiveIdentifier: string)

  /** The update recorders, as the edits they have recorded. */
  class UpdateRecorders {
    var edits: seq<ClassDecoratorEdit>

    constructor()
      ensures edits == []
    {
      edits := [];
    }
  }

  function DecoratorEdits(classes: seq<ClassId>, directiveIdentifier: ClassId -> string): (r: seq<ClassDecoratorEdit>)
    ensures |r| == |classes|
    ensures forall i :: 0 <= i < |r| ==> r[i].cls == classes[i] && r[i].directiveIdentifier == directiveIdentifier(classes[i])
  {
    if classes == [] then []
    else DecoratorEdits(classes[..|classes| - 1], directiveIdentifier)
         + [AddDirectiveDecorator(classes[|classes| - 1], directiveIdentifier(classes[|classes| - 1]))]
  }

  /** `migrate` */
  method Migrate(p: Program, classes: seq<ClassId>, directiveIdentifier: ClassId -> string, recorders: UpdateRecorders)
    modifies recorders
    ensures recorders.edits == old(recorders.edits) + DecoratorEdits(UndecoratedAbstractDirectives(p, classes), directiveIdentifier)
  {
    var migrated := FindUndecoratedAbstractDirectives(p, classes);
    for k := 0 to |migrated|
      invariant recorders.edits == old(recorders.edits) + DecoratorEdits(migrated[..k], directiveIdentifier)
    {
      assert migrated[..k + 1][..k] == migrated[..k];
      var node := migrated[k];
      recorders.edits := recorders.edits + [AddDirectiveDecorator(node, directiveIdentifier(node))];
    }
    assert migrated[..|migrated|] == migrated;
  }

  /** Each migrated class gets exactly one `@Directive()`, and no other class gets one. */
  lemma OneDecoratorPerClass(p: Program, classes: seq<ClassId>, directiveIdentifier: ClassId -> string, c: ClassId)
    ensures var migrated := UndecoratedAbstractDirectives(p, classes);
            var edits := DecoratorEdits(migrated, directiveIdentifier);
            && (c in migrated ==> exists i :: 0 <= i < |edits| && edits[i].cls == c
                                   && forall j :: 0 <= j < |edits| && edits[j].cls == c ==> j == i)
            && (c !in migrated ==> forall j :: 0 <= j < |edits| ==> edits[j].cls != c)
  {
    MigratedClassesIff(p, classes, c);
    var migrated := UndecoratedAbstractDirectives(p, classes);
    if c in migrated {
      var i :| 0 <= i < |migrated| && migrated[i] == c;
    }
  }
}
