/** `readBaseClass` (ngtsc/inheritance/src/base_class.ts): what a class's `extends`
    clause resolves to, read through the reflection host and the partial evaluator. */
module BaseClasses {
  import opened Wrappers

  type ClassId = nat

  /** What the partial evaluator makes of a base-class expression: a reference to a
      declaration (`isClass` is the reflection host's `isClass` on it), or any other value. */
  datatype EvaluatedBase = Reference(node: ClassId, isClass: bool) | OtherValue

  /** A class as the reflection host sees it: its name, the evaluated base-class
      expression when it has one, and whether it declares a constructor
      (`getConstructorParameters(node) !== null`). */
  datatype ClassInfo = ClassInfo(name: string, baseExpression: Option<EvaluatedBase>, hasConstructor: bool)

  type Classes = map<ClassId, ClassInfo>

  /** Base classes are known classes, numbered below their subclasses: any finite
      inheritance chain can be numbered this way, and on a cyclic one the scanner's walk
      would not end. */
  predicate ClassesOk(h: Classes) {
    forall c | c in h ::
      match h[c].baseExpression
      case Some(Reference(b, true)) => b in h && b < c
      case _ => true
  }

  /** `Reference<ClassDeclaration> | 'dynamic' | null` */
  datatype BaseClassRef = NoBaseClass | DynamicBase | BaseClassReference(node: ClassId)

  /** Without a base expression there is no base class; a reference to a class is the base
      class; anything else, a reference to a non-class included, is dynamic. */
  function ReadBaseClass(h: Classes, c: ClassId): (r: BaseClassRef)
    requires ClassesOk(h) && c in h
    ensures r.NoBaseClass? <==> h[c].baseExpression.None?
    ensures r.BaseClassReference? <==> h[c].baseExpression.Some? && h[c].baseExpression.value.Reference? && h[c].baseExpression.value.isClass
    ensures r.DynamicBase? <==> h[c].baseExpression.Some? && !(h[c].baseExpression.value.Reference? && h[c].baseExpression.value.isClass)
    ensures r.BaseClassReference? ==> r.node == h[c].baseExpression.value.node && r.node in h && r.node < c
  {
    match h[c].baseExpression
    case None => NoBaseClass
    case Some(value) =>
      if value.Reference? && value.isClass then BaseClassReference(value.node) else DynamicBase
  }
}
