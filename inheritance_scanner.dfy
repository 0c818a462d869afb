/** `DeclarationInheritanceScanner` (ngtsc/inheritance/src/scanner.ts): walks the base
    classes of each Angular declaration and collects diagnostics for constructors
    inherited from undecorated classes, incompatible base declarations, and undecorated
    classes in between a declaration and its decorated base. */
module InheritanceScanner {
  import opened Wrappers
  import opened BaseClasses
  import MigrationResults

  datatype DeclarationType = Directive | Component | Pipe | Injectable

  /** `DeclarationType[type]` */
  function TypeName(t: DeclarationType): string {
    match t
    case Directive => "Directive"
    case Component => "Component"
    case Pipe => "Pipe"
    case Injectable => "Injectable"
  }

  /** `DeclarationType[type].toLowerCase()` */
  function LowerTypeName(t: DeclarationType): string {
    match t
    case Directive => "directive"
    case Component => "component"
    case Pipe => "pipe"
    case Injectable => "injectable"
  }

  datatype NgDeclaration = NgDeclaration(kind: DeclarationType, node: ClassId)

  datatype ErrorCode =
    | IncompatibleComponentBaseClass
    | IncompatibleBaseClassForInjectable
    | UndecoratedClassInheritingAngularFeatures
    | DeclarationInheritsUndecoratedCtor

  /** A diagnostic from `makeDiagnostic(code, cls.name, message)`: `cls` is the class whose
      name it points at. */
  datatype Diagnostic = Diagnostic(code: ErrorCode, cls: ClassId, message: string)

  /** The services the scanner consults: the classes, `getDirectiveMetadata` (whether the
      directive is a component, when there is metadata), `getPipeMetadata !== null` and
      `isInjectable`. */
  datatype ScannerEnv = ScannerEnv(
    classes: Classes,
    directiveMetadata: ClassId -> Option<bool>,
    hasPipeMetadata: ClassId -> bool,
    isInjectable: ClassId -> bool)

  predicate EnvOk(env: ScannerEnv) {
    ClassesOk(env.classes)
  }

  // ---------------------------------------------------------------- messages

  const CannotInheritFromComponents := ". Classes using @Directive, @Pipe or @Injectable cannot inherit from components."
  const InjectableCannotInherit := ". Classes using @Injectable cannot inherit from directives, components or pipes."
  const UsesFeaturesFrom := " uses Angular features as it extends from "
  const NeedDecoration := ". Classes which inherit Angular features from other classes need to be decorated. Add a @"
  const NoDecoratorOfItsOwn :=
    ", but the latter does not have an Angular decorator of its own. Dependency injection will not be able to resolve the parameters of "
  const ConstructorEitherAdd := "'s constructor. Either add a @"

  function Name(env: ScannerEnv, c: ClassId): string
    requires c in env.classes
  {
    env.classes[c].name
  }

  function IncompatibleComponentBaseClassDiagnostic(env: ScannerEnv, node: ClassId, inheritedFromName: string): Diagnostic
    requires node in env.classes
  {
    Diagnostic(IncompatibleComponentBaseClass, node,
               "Class " + Name(env, node) + " inherits from " + inheritedFromName + CannotInheritFromComponents)
  }

  function IncompatibleBaseClassForInjectableDiagnostic(env: ScannerEnv, node: ClassId, base: NgDeclaration): Diagnostic
    requires node in env.classes && base.node in env.classes
  {
    Diagnostic(IncompatibleBaseClassForInjectable, node,
               "Class " + Name(env, node) + " inherits from " + Name(env, base.node) + InjectableCannotInherit)
  }

  function UndecoratedClassInheritsAngularFeaturesDiagnostic(env: ScannerEnv, node: ClassId, base: NgDeclaration): Diagnostic
    requires node in env.classes && base.node in env.classes
  {
    Diagnostic(UndecoratedClassInheritingAngularFeatures, node,
               "Class " + Name(env, node) + UsesFeaturesFrom + Name(env, base.node) + NeedDecoration
               + TypeName(base.kind) + " decorator.")
  }

  /** An injectable is told to decorate the base with @Injectable, anything else with @Directive. */
  function ProposedType(decl: NgDeclaration): (p: DeclarationType)
    ensures p == Injectable <==> decl.kind == Injectable
    ensures p != Injectable ==> p == Directive
  {
    if decl.kind == Injectable then Injectable else Directive
  }

  function InheritedUndecoratedCtorDiagnostic(env: ScannerEnv, decl: NgDeclaration, baseClass: ClassId): Diagnostic
    requires decl.node in env.classes && baseClass in env.classes
  {
    var baseClassName := Name(env, baseClass);
    Diagnostic(DeclarationInheritsUndecoratedCtor, decl.node,
               "The " + LowerTypeName(decl.kind) + " " + Name(env, decl.node) + " inherits its constructor from "
               + baseClassName + NoDecoratorOfItsOwn + baseClassName + ConstructorEitherAdd
               + TypeName(ProposedType(decl)) + " decorator to " + baseClassName
               + ", or add an explicit constructor to " + Name(env, decl.node) + ".")
  }

  // ---------------------------------------------------------------- the specification

  /** `_findDeclarationOfClass` without its cache: directive metadata first (a component
      or a directive), then pipe metadata, then the injectable registry. */
  function DeclarationOf(env: ScannerEnv, c: ClassId): (r: Option<NgDeclaration>)
    ensures r.Some? ==> r.value.node == c
    ensures env.directiveMetadata(c).Some? ==> r == Some(NgDeclaration(if env.directiveMetadata(c).value then Component else Directive, c))
    ensures env.directiveMetadata(c).None? && env.hasPipeMetadata(c) ==> r == Some(NgDeclaration(Pipe, c))
    ensures env.directiveMetadata(c).None? && !env.hasPipeMetadata(c) ==>
              (r.Some? <==> env.isInjectable(c)) && (r.Some? ==> r.value.kind == Injectable)
  {
    match env.directiveMetadata(c)
    case Some(isComponent) => Some(NgDeclaration(if isComponent then Component else Directive, c))
    case None =>
      if env.hasPipeMetadata(c) then Some(NgDeclaration(Pipe, c))
      else if env.isInjectable(c) then Some(NgDeclaration(Injectable, c))
      else None
  }

  predicate AllClasses(env: ScannerEnv, cs: seq<ClassId>) {
    forall i :: 0 <= i < |cs| ==> cs[i] in env.classes
  }

  /** The undecorated base classes the walk passes, nearest first, before it stops at a
      missing, dynamic or decorated base. */
  function Walked(env: ScannerEnv, c: ClassId): (r: seq<ClassId>)
    requires EnvOk(env) && c in env.classes
    ensures AllClasses(env, r)
    decreases c
  {
    match ReadBaseClass(env.classes, c)
    case BaseClassReference(b) => if DeclarationOf(env, b).Some? then [] else [b] + Walked(env, b)
    case _ => []
  }

  /** The decorated base class the walk stops at, if it stops at one. */
  function Reached(env: ScannerEnv, c: ClassId): (r: Option<NgDeclaration>)
    requires EnvOk(env) && c in env.classes
    ensures r.Some? ==> r.value.node in env.classes && r.value.node < c && DeclarationOf(env, r.value.node) == r
    decreases c
  {
    match ReadBaseClass(env.classes, c)
    case BaseClassReference(b) => if DeclarationOf(env, b).Some? then DeclarationOf(env, b) else Reached(env, b)
    case _ => None
  }

  /** The walked classes form a chain of undecorated classes, each the base class of the
      one before it, and the decorated base, if reached, is the base of the last one. */
  lemma {:induction false} WalkedIsUndecoratedChain(env: ScannerEnv, c: ClassId)
    requires EnvOk(env) && c in env.classes
    ensures var w := Walked(env, c);
            && (forall i :: 0 <= i < |w| ==> DeclarationOf(env, w[i]).None?)
            && (|w| > 0 ==> ReadBaseClass(env.classes, c) == BaseClassReference(w[0]))
            && (forall i :: 0 < i < |w| ==> ReadBaseClass(env.classes, w[i - 1]) == BaseClassReference(w[i]))
            && (Reached(env, c).Some? ==>
                  var last := if |w| == 0 then c else w[|w| - 1];
                  ReadBaseClass(env.classes, last) == BaseClassReference(Reached(env, c).value.node))
    decreases c
  {
    match ReadBaseClass(env.classes, c)
    case BaseClassReference(b) =>
      if DeclarationOf(env, b).None? {
        WalkedIsUndecoratedChain(env, b);
        var w := Walked(env, c);
        assert w == [b] + Walked(env, b);
        assert w[1..] == Walked(env, b);
      }
    case _ =>
  }

  /** `_checkInheritanceCompatibility`: its diagnostics and whether the base is compatible.
      Only a component may inherit from a component, and an injectable only from an
      injectable; the component rule is checked first. */
  function Compatibility(env: ScannerEnv, decl: NgDeclaration, base: NgDeclaration): (r: (seq<Diagnostic>, bool))
    requires decl.node in env.classes && base.node in env.classes
    ensures r.1 <==> r.0 == []
    ensures r.1 <==> (base.kind == Component ==> decl.kind == Component) && (decl.kind == Injectable ==> base.kind == Injectable)
    ensures !r.1 ==> |r.0| == 1 && r.0[0].cls == decl.node
                     && r.0[0].code == if base.kind == Component then IncompatibleComponentBaseClass else IncompatibleBaseClassForInjectable
  {
    if decl.kind != Component && base.kind == Component then
      ([IncompatibleComponentBaseClassDiagnostic(env, decl.node, Name(env, base.node))], false)
    else if decl.kind == Injectable && base.kind != Injectable then
      ([IncompatibleBaseClassForInjectableDiagnostic(env, decl.node, base)], false)
    else ([], true)
  }

  /** The first class of `cs` that declares a constructor. */
  function FirstWithConstructor(env: ScannerEnv, cs: seq<ClassId>): (r: Option<ClassId>)
    requires AllClasses(env, cs)
    ensures r.Some? <==> exists i :: 0 <= i < |cs| && env.classes[cs[i]].hasConstructor
    ensures r.Some? ==> r.value in env.classes
    ensures r.Some? ==> exists i :: 0 <= i < |cs| && cs[i] == r.value && env.classes[cs[i]].hasConstructor
                                    && forall j :: 0 <= j < i ==> !env.classes[cs[j]].hasConstructor
  {
    if cs == [] then None
    else
      var init := FirstWithConstructor(env, cs[..|cs| - 1]);
      if init.Some? then init
      else if env.classes[cs[|cs| - 1]].hasConstructor then Some(cs[|cs| - 1])
      else None
  }

  /** What `checkInheritance(node)` adds: its diagnostics, and the classes to be marked
      undecorated with the decorated base they inherit from. */
  datatype CheckOutcome = CheckOutcome(diagnostics: seq<Diagnostic>, intermediaries: seq<ClassId>, base: Option<NgDeclaration>)

  function CheckOutcomeOf(env: ScannerEnv, node: ClassId): CheckOutcome
    requires EnvOk(env) && node in env.classes
  {
    match DeclarationOf(env, node)
    case None => CheckOutcome([], [], None)
    case Some(decl) =>
      var walked := Walked(env, node);
      match Reached(env, node)
      case Some(baseDecl) =>
        var (diags, compatible) := Compatibility(env, decl, baseDecl);
        CheckOutcome(diags, if compatible then walked else [], Some(baseDecl))
      case None =>
        var found := if env.classes[node].hasConstructor then None else FirstWithConstructor(env, walked);
        CheckOutcome(if found.Some? then [InheritedUndecoratedCtorDiagnostic(env, decl, found.value)] else [], [], None)
  }

  // ---------------------------------------------------------------- the walk, step by step

  /** The loop of `checkInheritance` has passed `chain` and stands at `current`. */
  ghost predicate Walking(env: ScannerEnv, node: ClassId, decl: NgDeclaration, chain: seq<ClassId>,
                          current: ClassId, found: Option<ClassId>)
    requires EnvOk(env) && node in env.classes
  {
    && current in env.classes && AllClasses(env, chain)
    && DeclarationOf(env, node) == Some(decl)
    && Walked(env, node) == chain + Walked(env, current)
    && Reached(env, node) == Reached(env, current)
    && found == if env.classes[node].hasConstructor then None else FirstWithConstructor(env, chain)
  }

  lemma WalkingStarts(env: ScannerEnv, node: ClassId, decl: NgDeclaration)
    requires EnvOk(env) && node in env.classes && DeclarationOf(env, node) == Some(decl)
    ensures Walking(env, node, decl, [], node, None)
  {
    assert [] + Walked(env, node) == Walked(env, node);
  }

  lemma WalkingSteps(env: ScannerEnv, node: ClassId, decl: NgDeclaration, chain: seq<ClassId>,
                     current: ClassId, found: Option<ClassId>, b: ClassId)
    requires EnvOk(env) && node in env.classes && Walking(env, node, decl, chain, current, found)
    requires ReadBaseClass(env.classes, current) == BaseClassReference(b) && DeclarationOf(env, b).None?
    ensures Walking(env, node, decl, chain + [b], b,
                    if !env.classes[node].hasConstructor && found.None? && env.classes[b].hasConstructor then Some(b) else found)
  {
    var next := chain + [b];
    assert next[..|chain|] == chain;
    assert Walked(env, current) == [b] + Walked(env, b);
    MigrationResults.ConcatAssociative(chain, [b], Walked(env, b));
  }

  /** The walk ends without a base class, or at a dynamic one: a constructor diagnostic
      when an undecorated base's constructor was found. */
  lemma WalkingEndsUndecorated(env: ScannerEnv, node: ClassId, decl: NgDeclaration, chain: seq<ClassId>,
                               current: ClassId, found: Option<ClassId>)
    requires EnvOk(env) && node in env.classes && Walking(env, node, decl, chain, current, found)
    requires !ReadBaseClass(env.classes, current).BaseClassReference?
    ensures found.Some? ==> found.value in env.classes
    ensures CheckOutcomeOf(env, node)
            == CheckOutcome(if found.Some? then [InheritedUndecoratedCtorDiagnostic(env, decl, found.value)] else [], [], None)
  {
    assert Walked(env, node) == chain + [];
    assert Walked(env, node) == chain;
  }

  /** The walk ends at a decorated base class. */
  lemma WalkingEndsDecorated(env: ScannerEnv, node: ClassId, decl: NgDeclaration, chain: seq<ClassId>,
                             current: ClassId, found: Option<ClassId>, b: ClassId)
    requires EnvOk(env) && node in env.classes && Walking(env, node, decl, chain, current, found)
    requires ReadBaseClass(env.classes, current) == BaseClassReference(b) && DeclarationOf(env, b).Some?
    ensures var outcome := Compatibility(env, decl, DeclarationOf(env, b).value);
            CheckOutcomeOf(env, node) == CheckOutcome(outcome.0, if outcome.1 then chain else [], DeclarationOf(env, b))
  {
    assert Walked(env, node) == chain + [];
    assert Walked(env, node) == chain;
  }

  // ---------------------------------------------------------------- the undecorated-classes map

  /** A JavaScript `Map`: its keys in insertion order and its entries. */
  datatype OrderedMap = OrderedMap(keys: seq<ClassId>, entries: map<ClassId, NgDeclaration>)

  ghost predicate OrderedMapOk(m: OrderedMap) {
    && (forall i, j :: 0 <= i < j < |m.keys| ==> m.keys[i] != m.keys[j])
    && (forall c :: c in m.entries <==> c in m.keys)
  }

  /** `map.set(c, v)`: a new key goes last, an existing one keeps its place. */
  function Set(m: OrderedMap, c: ClassId, v: NgDeclaration): OrderedMap {
    OrderedMap(if c in m.entries then m.keys else m.keys + [c], m.entries[c := v])
  }

  /** `chain.forEach(i => map.set(i, v))` */
  function SetAll(m: OrderedMap, chain: seq<ClassId>, v: NgDeclaration): OrderedMap {
    if chain == [] then m else Set(SetAll(m, chain[..|chain| - 1], v), chain[|chain| - 1], v)
  }

  lemma SetKeepsMapOk(m: OrderedMap, c: ClassId, v: NgDeclaration)
    requires OrderedMapOk(m)
    ensures var r := Set(m, c, v);
            && OrderedMapOk(r)
            && |m.keys| <= |r.keys| && r.keys[..|m.keys|] == m.keys
  {
    var r := Set(m, c, v);
    if c !in m.entries {
      assert c !in m.keys;
      assert r.keys[..|m.keys|] == m.keys;
    } else {
      assert r.keys[..|m.keys|] == m.keys;
    }
  }

  /** Setting keys keeps them unique and in first-insertion order: a class shared by
      several subclasses is listed once, where it was first flagged, and maps to the
      declaration it was last flagged for. */
  lemma {:induction false} SetAllKeepsMapOk(m: OrderedMap, chain: seq<ClassId>, v: NgDeclaration)
    requires OrderedMapOk(m)
    ensures var r := SetAll(m, chain, v);
            && OrderedMapOk(r)
            && |m.keys| <= |r.keys| && r.keys[..|m.keys|] == m.keys
            && (forall c :: c in r.entries <==> c in m.entries || c in chain)
            && (forall c :: c in chain ==> r.entries[c] == v)
            && (forall c :: c in m.entries && c !in chain ==> r.entries[c] == m.entries[c])
  {
    if chain != [] {
      var init := chain[..|chain| - 1];
      var last := chain[|chain| - 1];
      SetAllKeepsMapOk(m, init, v);
      var before := SetAll(m, init, v);
      SetKeepsMapOk(before, last, v);
      var r := SetAll(m, chain, v);
      assert r == Set(before, last, v);
      assert r.keys[..|m.keys|] == before.keys[..|m.keys|] by {
        assert r.keys[..|before.keys|] == before.keys;
      }
      assert chain == init + [last];
      assert forall c :: c in chain <==> c in init || c == last;
      assert r.entries == before.entries[last := v];
      forall c | c in chain
        ensures r.entries[c] == v
      {
        if c != last {
          assert c in init;
        }
      }
    }
  }

  /** Flagged classes and the bases they are flagged for are known classes. */
  ghost predicate UndecoratedMapOk(env: ScannerEnv, m: OrderedMap) {
    && OrderedMapOk(m)
    && (forall c | c in m.entries :: c in env.classes && m.entries[c].node in env.classes)
  }

  lemma SetAllKeepsUndecoratedMapOk(env: ScannerEnv, m: OrderedMap, chain: seq<ClassId>, v: NgDeclaration)
    requires UndecoratedMapOk(env, m) && AllClasses(env, chain) && v.node in env.classes
    ensures UndecoratedMapOk(env, SetAll(m, chain, v))
  {
    SetAllKeepsMapOk(m, chain, v);
    var r := SetAll(m, chain, v);
    forall c | c in r.entries
      ensures c in env.classes && r.entries[c].node in env.classes
    {
      if c in chain {
        var k :| 0 <= k < |chain| && chain[k] == c;
      }
    }
  }

  /** Every key has an entry and both are known classes. */
  predicate KeysResolved(env: ScannerEnv, keys: seq<ClassId>, entries: map<ClassId, NgDeclaration>) {
    forall i :: 0 <= i < |keys| ==> keys[i] in entries && keys[i] in env.classes && entries[keys[i]].node in env.classes
  }

  /** One undecorated-class diagnostic per key, in insertion order. */
  function UndecoratedDiagnostics(env: ScannerEnv, keys: seq<ClassId>, entries: map<ClassId, NgDeclaration>): (r: seq<Diagnostic>)
    requires KeysResolved(env, keys, entries)
    ensures |r| == |keys|
  {
    if keys == [] then []
    else
      UndecoratedDiagnostics(env, keys[..|keys| - 1], entries)
      + [UndecoratedClassInheritsAngularFeaturesDiagnostic(env, keys[|keys| - 1], entries[keys[|keys| - 1]])]
  }

  /** The diagnostics of one more key. */
  lemma UndecoratedDiagnosticsStep(env: ScannerEnv, keys: seq<ClassId>, entries: map<ClassId, NgDeclaration>, i: nat)
    requires KeysResolved(env, keys, entries) && i < |keys|
    ensures KeysResolved(env, keys[..i], entries) && KeysResolved(env, keys[..i + 1], entries)
    ensures UndecoratedDiagnostics(env, keys[..i + 1], entries)
            == UndecoratedDiagnostics(env, keys[..i], entries)
               + [UndecoratedClassInheritsAngularFeaturesDiagnostic(env, keys[i], entries[keys[i]])]
  {
    assert keys[..i + 1][..i] == keys[..i];
  }

  /** The diagnostic at position `i` is about the `i`th flagged class and names the base it
      was flagged for. */
  lemma {:induction false} UndecoratedDiagnosticsPerKey(env: ScannerEnv, keys: seq<ClassId>, entries: map<ClassId, NgDeclaration>)
    requires KeysResolved(env, keys, entries)
    ensures var r := UndecoratedDiagnostics(env, keys, entries);
            forall i :: 0 <= i < |keys| ==>
              r[i] == UndecoratedClassInheritsAngularFeaturesDiagnostic(env, keys[i], entries[keys[i]])
  {
    if keys != [] {
      var init := keys[..|keys| - 1];
      UndecoratedDiagnosticsPerKey(env, init, entries);
      var r := UndecoratedDiagnostics(env, keys, entries);
      forall i | 0 <= i < |keys|
        ensures r[i] == UndecoratedClassInheritsAngularFeaturesDiagnostic(env, keys[i], entries[keys[i]])
      {
        if i < |init| {
          assert keys[i] == init[i];
        }
      }
    }
  }

  // ---------------------------------------------------------------- the scanner

  /** The cache only holds what `DeclarationOf` answers. */
  ghost predicate CacheOk(env: ScannerEnv, declarations: map<ClassId, NgDeclaration>) {
    forall c | c in declarations :: DeclarationOf(env, c) == Some(declarations[c])
  }

  class DeclarationInheritanceScanner {
    const env: ScannerEnv
    var diagnostics: seq<Diagnostic>
    var undecoratedBaseClasses: OrderedMap
    var declarations: map<ClassId, NgDeclaration>

    ghost predicate Valid()
      reads this
    {
      EnvOk(env) && CacheOk(env, declarations) && UndecoratedMapOk(env, undecoratedBaseClasses)
    }

    constructor(env: ScannerEnv)
      requires EnvOk(env)
      ensures Valid() && this.env == env
      ensures diagnostics == [] && undecoratedBaseClasses == OrderedMap([], map[]) && declarations == map[]
    {
      this.env := env;
      diagnostics := [];
      undecoratedBaseClasses := OrderedMap([], map[]);
      declarations := map[];
    }

    /** `_findDeclarationOfClass`: the cached answer, or the computed one, cached when found. */
    method FindDeclarationOfClass(node: ClassId) returns (decl: Option<NgDeclaration>)
      requires Valid()
      modifies this`declarations
      ensures Valid() && decl == DeclarationOf(env, node)
      ensures declarations == if decl.Some? then old(declarations)[node := decl.value] else old(declarations)
    {
      if node in declarations {
        return Some(declarations[node]);
      }
      decl := None;
      var directiveMetadata := env.directiveMetadata(node);
      if directiveMetadata.Some? {
        decl := Some(NgDeclaration(if directiveMetadata.value then Component else Directive, node));
      } else if env.hasPipeMetadata(node) {
        decl := Some(NgDeclaration(Pipe, node));
      } else if env.isInjectable(node) {
        decl := Some(NgDeclaration(Injectable, node));
      }
      if decl.Some? {
        declarations := declarations[node := decl.value];
      }
    }

    /** `_checkInheritanceCompatibility` */
    method CheckInheritanceCompatibility(decl: NgDeclaration, base: NgDeclaration) returns (compatible: bool)
      requires decl.node in env.classes && base.node in env.classes
      modifies this`diagnostics
      ensures compatible == Compatibility(env, decl, base).1
      ensures diagnostics == old(diagnostics) + Compatibility(env, decl, base).0
    {
      if decl.kind != Component && base.kind == Component {
        diagnostics := diagnostics + [IncompatibleComponentBaseClassDiagnostic(env, decl.node, Name(env, base.node))];
        return false;
      }
      if decl.kind == Injectable && base.kind != Injectable {
        diagnostics := diagnostics + [IncompatibleBaseClassForInjectableDiagnostic(env, decl.node, base)];
        return false;
      }
      return true;
    }

    /** `checkInheritance`: nothing for a class that is not an Angular declaration;
        otherwise the walk up its base classes, proved against `CheckOutcomeOf`. */
    method CheckInheritance(node: ClassId)
      requires Valid() && node in env.classes
      modifies this
      ensures Valid()
      ensures diagnostics == old(diagnostics) + CheckOutcomeOf(env, node).diagnostics
      ensures var outcome := CheckOutcomeOf(env, node);
              undecoratedBaseClasses == if outcome.base.Some? then SetAll(old(undecoratedBaseClasses), outcome.intermediaries, outcome.base.value)
                                        else old(undecoratedBaseClasses)
    {
      var decl := FindDeclarationOfClass(node);
      if decl.None? {
        return;
      }
      WalkingStarts(env, node, decl.value);
      var isConstructorInherited := !env.classes[node].hasConstructor;
      var inheritanceChain: seq<ClassId> := [];
      var foundConstructorBaseClass: Option<ClassId> := None;
      var currentClass := node;
      while true
        invariant Valid() && Walking(env, node, decl.value, inheritanceChain, currentClass, foundConstructorBaseClass)
        invariant diagnostics == old(diagnostics) && undecoratedBaseClasses == old(undecoratedBaseClasses)
        decreases currentClass
      {
        var baseClassRef := ReadBaseClass(env.classes, currentClass);
        if !baseClassRef.BaseClassReference? {
          WalkingEndsUndecorated(env, node, decl.value, inheritanceChain, currentClass, foundConstructorBaseClass);
          if foundConstructorBaseClass.Some? {
            diagnostics := diagnostics + [InheritedUndecoratedCtorDiagnostic(env, decl.value, foundConstructorBaseClass.value)];
          }
          return;
        }
        var baseClass := baseClassRef.node;
        var baseClassDecl := FindDeclarationOfClass(baseClass);
        if baseClassDecl.Some? {
          WalkingEndsDecorated(env, node, decl.value, inheritanceChain, currentClass, foundConstructorBaseClass, baseClass);
          var compatible := CheckInheritanceCompatibility(decl.value, baseClassDecl.value);
          if compatible {
            SetAllKeepsUndecoratedMapOk(env, undecoratedBaseClasses, inheritanceChain, baseClassDecl.value);
            undecoratedBaseClasses := SetAll(undecoratedBaseClasses, inheritanceChain, baseClassDecl.value);
          }
          return;
        }
        WalkingSteps(env, node, decl.value, inheritanceChain, currentClass, foundConstructorBaseClass, baseClass);
        if isConstructorInherited && foundConstructorBaseClass.None? && env.classes[baseClass].hasConstructor {
          foundConstructorBaseClass := Some(baseClass);
        }
        inheritanceChain := inheritanceChain + [baseClass];
        currentClass := baseClass;
      }
    }

    /** `getDiagnostics`: the direct diagnostics, then one per undecorated class in the
        order the classes were first flagged; nothing changes. */
    method GetDiagnostics() returns (r: seq<Diagnostic>)
      requires Valid()
      ensures KeysResolved(env, undecoratedBaseClasses.keys, undecoratedBaseClasses.entries)
      ensures r == diagnostics + UndecoratedDiagnostics(env, undecoratedBaseClasses.keys, undecoratedBaseClasses.entries)
    {
      r := diagnostics;
      var keys := undecoratedBaseClasses.keys;
      var entries := undecoratedBaseClasses.entries;
      assert KeysResolved(env, keys, entries);
      assert keys[..0] == [];
      for i := 0 to |keys|
        invariant KeysResolved(env, keys[..i], entries)
        invariant r == diagnostics + UndecoratedDiagnostics(env, keys[..i], entries)
      {
        var clazz := keys[i];
        UndecoratedDiagnosticsStep(env, keys, entries, i);
        MigrationResults.ConcatAssociative(diagnostics, UndecoratedDiagnostics(env, keys[..i], entries),
          [UndecoratedClassInheritsAngularFeaturesDiagnostic(env, clazz, entries[clazz])]);
        r := r + [UndecoratedClassInheritsAngularFeaturesDiagnostic(env, clazz, entries[clazz])];
      }
      assert keys[..|keys|] == keys;
    }
  }

  // ---------------------------------------------------------------- properties

  /** Without a decorated base, the only possible diagnostic is the constructor one: it is
      produced exactly when the class inherits its constructor and one of the walked
      undecorated bases declares one, and it names the nearest such base. */
  lemma ConstructorDiagnosticWithoutBase(env: ScannerEnv, node: ClassId)
    requires EnvOk(env) && node in env.classes && DeclarationOf(env, node).Some? && Reached(env, node).None?
    ensures var outcome := CheckOutcomeOf(env, node);
            var walked := Walked(env, node);
            && outcome.intermediaries == [] && outcome.base.None?
            && (outcome.diagnostics != [] <==> !env.classes[node].hasConstructor
                                                && exists i :: 0 <= i < |walked| && env.classes[walked[i]].hasConstructor)
            && (outcome.diagnostics != [] ==>
                  outcome.diagnostics == [InheritedUndecoratedCtorDiagnostic(env, DeclarationOf(env, node).value,
                                                                             FirstWithConstructor(env, walked).value)])
  {
  }

  /** With a decorated base, no constructor diagnostic is produced, whatever the
      intermediaries declare: the base's own injection metadata covers it. */
  lemma NoConstructorDiagnosticWithBase(env: ScannerEnv, node: ClassId)
    requires EnvOk(env) && node in env.classes && DeclarationOf(env, node).Some? && Reached(env, node).Some?
    ensures forall d :: d in CheckOutcomeOf(env, node).diagnostics ==> d.code != DeclarationInheritsUndecoratedCtor
    ensures CheckOutcomeOf(env, node).base == Reached(env, node)
  {
  }

  /** A non-component inheriting a component gets the component-base error even when it
      is an injectable, and nothing in between is flagged. */
  lemma ComponentBaseCheckedFirst(env: ScannerEnv, node: ClassId)
    requires EnvOk(env) && node in env.classes && DeclarationOf(env, node).Some?
    requires DeclarationOf(env, node).value.kind != Component
    requires Reached(env, node).Some? && Reached(env, node).value.kind == Component
    ensures var outcome := CheckOutcomeOf(env, node);
            && |outcome.diagnostics| == 1
            && outcome.diagnostics[0].code == IncompatibleComponentBaseClass
            && outcome.diagnostics[0].cls == node
            && outcome.intermediaries == []
  {
  }

  /** With a compatible decorated base, exactly the walked undecorated classes are flagged,
      nearest first, and the declaration itself gets no diagnostic. */
  lemma CompatibleBaseFlagsIntermediaries(env: ScannerEnv, node: ClassId)
    requires EnvOk(env) && node in env.classes && DeclarationOf(env, node).Some?
    requires Reached(env, node).Some? && Compatibility(env, DeclarationOf(env, node).value, Reached(env, node).value).1
    ensures var outcome := CheckOutcomeOf(env, node);
            && outcome.diagnostics == []
            && outcome.intermediaries == Walked(env, node)
            && (forall i :: 0 <= i < |outcome.intermediaries| ==> DeclarationOf(env, outcome.intermediaries[i]).None?)
  {
    WalkedIsUndecoratedChain(env, node);
  }
}
