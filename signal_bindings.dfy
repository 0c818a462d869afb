/** The template pipeline's signal-bindings phase
    (compiler/src/template/pipeline/src/phases/signal_bindings.ts): for a signal-based job,
    each update-block `Property` op takes the place of its binding-signal placeholder in
    the create block as a `PropertyCreate` op; every placeholder still indexed afterwards
    is removed. */
module SignalBindings {
  type XrefId = nat
  /** The identity of an op object in its list. */
  type OpId = nat
  type ExprId = nat

  /** The fields `createPropertyCreateOp` copies from a `Property` op. */
  datatype PropertyFields = PropertyFields(
    bindingXref: XrefId, target: XrefId, name: string, expression: ExprId,
    isAnimationTrigger: bool, securityContext: nat, isTemplate: bool, sourceSpan: nat)

  datatype CreateKind = BindingSignalPlaceholder(bindingXref: XrefId) | PropertyCreate(fields: PropertyFields) | OtherCreate

  /** An op of a create list: its identity and what it is. */
  datatype CreateOp = CreateOp(id: OpId, kind: CreateKind)

  datatype UpdateOp = Property(fields: PropertyFields) | OtherUpdate

  predicate IsPlaceholder(op: CreateOp, x: XrefId) {
    op.kind == BindingSignalPlaceholder(x)
  }

  /** Op objects are distinct; no two ops of a list share an identity. */
  predicate DistinctIds(create: seq<CreateOp>) {
    forall i, j :: 0 <= i < j < |create| ==> create[i].id != create[j].id
  }

  // ---------------------------------------------------------------- the placeholder index

  /** The first loop: each placeholder indexed by its binding xref, a later one replacing
      an earlier one with the same xref. */
  function Placeholders(create: seq<CreateOp>): map<XrefId, OpId> {
    if create == [] then map[]
    else
      var index := Placeholders(create[..|create| - 1]);
      var op := create[|create| - 1];
      if op.kind.BindingSignalPlaceholder? then index[op.kind.bindingXref := op.id] else index
  }

  /** Every placeholder's xref is indexed, and an indexed xref names the last placeholder
      with that xref. */
  lemma {:induction false} PlaceholdersIndexLast(create: seq<CreateOp>)
    ensures forall i :: 0 <= i < |create| && create[i].kind.BindingSignalPlaceholder? ==>
              create[i].kind.bindingXref in Placeholders(create)
    ensures forall x :: x in Placeholders(create) ==>
              exists i :: 0 <= i < |create| && create[i].id == Placeholders(create)[x] && IsPlaceholder(create[i], x)
                          && forall j :: i < j < |create| ==> !IsPlaceholder(create[j], x)
  {
    if create != [] {
      var init := create[..|create| - 1];
      var last := create[|create| - 1];
      PlaceholdersIndexLast(init);
      assert forall i :: 0 <= i < |init| ==> init[i] == create[i];
      var index := Placeholders(create);
      forall x | x in index
        ensures exists i :: 0 <= i < |create| && create[i].id == index[x] && IsPlaceholder(create[i], x)
                            && forall j :: i < j < |create| ==> !IsPlaceholder(create[j], x)
      {
        if IsPlaceholder(last, x) {
          assert create[|create| - 1].id == index[x];
        } else {
          var i :| 0 <= i < |init| && init[i].id == Placeholders(init)[x] && IsPlaceholder(init[i], x)
                   && forall j :: i < j < |init| ==> !IsPlaceholder(init[j], x);
          assert create[i].id == index[x];
        }
      }
    }
  }

  /** With distinct identities, the op an index entry names is that xref's placeholder. */
  lemma IndexedOpIsPlaceholder(create: seq<CreateOp>, x: XrefId, i: nat)
    requires DistinctIds(create) && x in Placeholders(create)
    requires i < |create| && create[i].id == Placeholders(create)[x]
    ensures IsPlaceholder(create[i], x)
  {
    PlaceholdersIndexLast(create);
  }

  // ---------------------------------------------------------------- list edits

  /** `OpList.replace(op, newOp)`: `newOp` takes the place of the op with identity `id`. */
  function Replace(create: seq<CreateOp>, id: OpId, newOp: CreateOp): (r: seq<CreateOp>)
    ensures |r| == |create|
  {
    seq(|create|, i requires 0 <= i < |create| => if create[i].id == id then newOp else create[i])
  }

  /** `OpList.remove(op)` for each op whose identity is in `ids`. */
  function RemoveOps(create: seq<CreateOp>, ids: set<OpId>): (r: seq<CreateOp>)
    ensures forall op :: op in r <==> op in create && op.id !in ids
  {
    if create == [] then []
    else
      var last := create[|create| - 1];
      assert create == create[..|create| - 1] + [last];
      RemoveOps(create[..|create| - 1], ids) + (if last.id in ids then [] else [last])
  }

  lemma {:induction false} RemoveOpsNothing(create: seq<CreateOp>)
    ensures RemoveOps(create, {}) == create
  {
    if create != [] {
      var init := create[..|create| - 1];
      RemoveOpsNothing(init);
      assert create == init + [create[|create| - 1]];
    }
  }

  /** Removing ops one at a time, in any order, removes the whole set. */
  lemma RemoveOpsSnoc(create: seq<CreateOp>, op: CreateOp, ids: set<OpId>)
    ensures RemoveOps(create + [op], ids) == RemoveOps(create, ids) + (if op.id in ids then [] else [op])
  {
    assert (create + [op])[..|create|] == create;
  }

  lemma {:induction false} RemoveOpsAgain(create: seq<CreateOp>, ids: set<OpId>, id: OpId)
    ensures RemoveOps(RemoveOps(create, ids), {id}) == RemoveOps(create, ids + {id})
  {
    if create != [] {
      var init := create[..|create| - 1];
      var last := create[|create| - 1];
      var both := ids + {id};
      var kept := if last.id in both then [] else [last];
      assert create == init + [last];
      RemoveOpsAgain(init, ids, id);
      RemoveOpsSnoc(init, last, ids);
      RemoveOpsSnoc(init, last, both);
      assert RemoveOps(create, both) == RemoveOps(init, both) + kept;
      if last.id in ids {
        assert RemoveOps(create, ids) == RemoveOps(init, ids);
        assert kept == [];
      } else {
        assert RemoveOps(create, ids) == RemoveOps(init, ids) + [last];
        RemoveOpsSnoc(RemoveOps(init, ids), last, {id});
        assert (last.id in {id}) == (last.id in both);
      }
    }
  }

  // ---------------------------------------------------------------- the phase, as functions

  /** The state of `processUnit`: the create list, the placeholder index, and whether it threw. */
  datatype UnitState = UnitState(create: seq<CreateOp>, placeholders: map<XrefId, OpId>, failed: bool)

  /** The second loop, over the update ops still to visit: a `Property` op whose xref is no
      longer indexed throws; otherwise its placeholder is replaced by a `PropertyCreate` op
      with the same fields, and the xref leaves the index. */
  function MoveProperties(create: seq<CreateOp>, placeholders: map<XrefId, OpId>, update: seq<UpdateOp>): (r: UnitState)
    decreases |update|
  {
    if update == [] then UnitState(create, placeholders, false)
    else match update[0]
      case OtherUpdate => MoveProperties(create, placeholders, update[1..])
      case Property(fields) =>
        if fields.bindingXref !in placeholders then UnitState(create, placeholders, true)
        else
          var id := placeholders[fields.bindingXref];
          MoveProperties(Replace(create, id, CreateOp(id, PropertyCreate(fields))),
                         placeholders - {fields.bindingXref}, update[1..])
  }

  /** `processUnit` */
  function ProcessUnitSpec(create: seq<CreateOp>, update: seq<UpdateOp>, isSignal: bool): UnitState {
    var index := Placeholders(create);
    var moved := if isSignal then MoveProperties(create, index, update) else UnitState(create, index, false);
    if moved.failed then moved
    else moved.(create := RemoveOps(moved.create, moved.placeholders.Values))
  }

  // ---------------------------------------------------------------- the reference definition

  /** The update ops' fields by xref, an op overriding earlier ones with its xref. */
  function PropertyFieldsFrom(moved: map<XrefId, PropertyFields>, update: seq<UpdateOp>): map<XrefId, PropertyFields>
    decreases |update|
  {
    if update == [] then moved
    else match update[0]
      case OtherUpdate => PropertyFieldsFrom(moved, update[1..])
      case Property(fields) => PropertyFieldsFrom(moved[fields.bindingXref := fields], update[1..])
  }

  /** The create list once the xrefs of `moved` have had their placeholder replaced in place. */
  function Substituted(create: seq<CreateOp>, index: map<XrefId, OpId>, moved: map<XrefId, PropertyFields>): (r: seq<CreateOp>)
    ensures |r| == |create|
  {
    seq(|create|, i requires 0 <= i < |create| =>
      var op := create[i];
      if op.kind.BindingSignalPlaceholder? && op.kind.bindingXref in moved && op.kind.bindingXref in index
         && index[op.kind.bindingXref] == op.id
      then CreateOp(op.id, PropertyCreate(moved[op.kind.bindingXref]))
      else op)
  }

  /** The update op at `i` throws: a `Property` op whose xref has no placeholder, was moved
      before this loop began (`done`), or was moved by an earlier op. */
  predicate ThrowsAt(index: map<XrefId, OpId>, done: set<XrefId>, update: seq<UpdateOp>, i: int)
    requires 0 <= i < |update|
  {
    && update[i].Property?
    && var x := update[i].fields.bindingXref;
    || x !in index
    || x in done
    || exists j :: 0 <= j < i && update[j].Property? && update[j].fields.bindingXref == x
  }

  predicate Throws(index: map<XrefId, OpId>, done: set<XrefId>, update: seq<UpdateOp>) {
    exists i :: 0 <= i < |update| && ThrowsAt(index, done, update, i)
  }

  /** One replacement: replacing the placeholder of a not yet moved xref extends the
      substitution by that xref. */
  lemma ReplaceStep(create: seq<CreateOp>, index: map<XrefId, OpId>, moved: map<XrefId, PropertyFields>, fields: PropertyFields)
    requires DistinctIds(create) && index == Placeholders(create)
    requires fields.bindingXref in index && fields.bindingXref !in moved
    ensures var id := index[fields.bindingXref];
            Replace(Substituted(create, index, moved), id, CreateOp(id, PropertyCreate(fields)))
            == Substituted(create, index, moved[fields.bindingXref := fields])
  {
    var x := fields.bindingXref;
    var id := index[x];
    var before := Substituted(create, index, moved);
    var lhs := Replace(before, id, CreateOp(id, PropertyCreate(fields)));
    var rhs := Substituted(create, index, moved[x := fields]);
    forall i | 0 <= i < |create|
      ensures lhs[i] == rhs[i]
    {
      if create[i].id == id {
        IndexedOpIsPlaceholder(create, x, i);
      }
    }
  }

  /** Skipping a non-`Property` op or moving one that does not throw shifts `Throws` by one op. */
  lemma ThrowsShift(index: map<XrefId, OpId>, done: set<XrefId>, update: seq<UpdateOp>)
    requires update != [] && !ThrowsAt(index, done, update, 0)
    ensures var done' := if update[0].Property? then done + {update[0].fields.bindingXref} else done;
            Throws(index, done, update) <==> Throws(index, done', update[1..])
  {
    var done' := if update[0].Property? then done + {update[0].fields.bindingXref} else done;
    var rest := update[1..];
    if Throws(index, done, update) {
      var i :| 0 <= i < |update| && ThrowsAt(index, done, update, i);
      assert i > 0;
      var x := update[i].fields.bindingXref;
      if x !in index || x in done {
        assert ThrowsAt(index, done', rest, i - 1);
      } else {
        var j :| 0 <= j < i && update[j].Property? && update[j].fields.bindingXref == x;
        if j == 0 {
          assert ThrowsAt(index, done', rest, i - 1);
        } else {
          assert rest[j - 1] == update[j];
          assert ThrowsAt(index, done', rest, i - 1);
        }
      }
    }
    if Throws(index, done', rest) {
      var i :| 0 <= i < |rest| && ThrowsAt(index, done', rest, i);
      var x := rest[i].fields.bindingXref;
      assert rest[i] == update[i + 1];
      if x !in index || x in done {
        assert ThrowsAt(index, done, update, i + 1);
      } else if x in done' {
        assert ThrowsAt(index, done, update, i + 1);
      } else {
        var j :| 0 <= j < i && rest[j].Property? && rest[j].fields.bindingXref == x;
        assert update[j + 1] == rest[j];
        assert ThrowsAt(index, done, update, i + 1);
      }
    }
  }

  /** The second loop against the reference: it throws exactly when some `Property` op
      finds no indexed placeholder, and otherwise leaves every moved xref's placeholder
      replaced in place and those xrefs out of the index. */
  lemma {:induction false} MovePropertiesMeaning(create: seq<CreateOp>, index: map<XrefId, OpId>,
                                                 moved: map<XrefId, PropertyFields>, update: seq<UpdateOp>)
    requires DistinctIds(create) && index == Placeholders(create)
    decreases |update|
    ensures var r := MoveProperties(Substituted(create, index, moved), index - moved.Keys, update);
            && (r.failed <==> Throws(index, moved.Keys, update))
            && (!r.failed ==> r.create == Substituted(create, index, PropertyFieldsFrom(moved, update))
                              && r.placeholders == index - PropertyFieldsFrom(moved, update).Keys)
  {
    if update != [] {
      var rest := update[1..];
      match update[0]
      case OtherUpdate =>
        ThrowsShift(index, moved.Keys, update);
        MovePropertiesMeaning(create, index, moved, rest);
      case Property(fields) =>
        var x := fields.bindingXref;
        if x !in index - moved.Keys {
          assert ThrowsAt(index, moved.Keys, update, 0);
        } else {
          ReplaceStep(create, index, moved, fields);
          ThrowsShift(index, moved.Keys, update);
          assert moved[x := fields].Keys == moved.Keys + {x};
          assert index - moved.Keys - {x} == index - moved[x := fields].Keys;
          MovePropertiesMeaning(create, index, moved[x := fields], rest);
        }
    }
  }

  lemma SubstitutedNothing(create: seq<CreateOp>, index: map<XrefId, OpId>)
    ensures Substituted(create, index, map[]) == create
  {
  }

  /** `processUnit` against the reference: a signal job throws exactly when some `Property`
      op has no indexed placeholder, or shares its xref with an earlier `Property` op; a
      non-signal job never throws. Otherwise each moved xref's indexed placeholder is
      replaced in place by a `PropertyCreate` op with that op's fields, and every other
      indexed placeholder is removed. */
  lemma ProcessUnitMeaning(create: seq<CreateOp>, update: seq<UpdateOp>, isSignal: bool)
    requires DistinctIds(create)
    ensures var index := Placeholders(create);
            var moved := if isSignal then PropertyFieldsFrom(map[], update) else map[];
            var r := ProcessUnitSpec(create, update, isSignal);
            && (r.failed <==> isSignal && Throws(index, {}, update))
            && (!r.failed ==> r.create == RemoveOps(Substituted(create, index, moved), (index - moved.Keys).Values))
  {
    var index := Placeholders(create);
    SubstitutedNothing(create, index);
    var none: map<XrefId, PropertyFields> := map[];
    assert index - none.Keys == index;
    if isSignal {
      MovePropertiesMeaning(create, index, none, update);
      assert none.Keys == {};
      var r := MoveProperties(create, index, update);
      assert r.failed <==> Throws(index, {}, update);
      assert !r.failed ==> r.create == Substituted(create, index, PropertyFieldsFrom(none, update));
    }
  }

  /** A placeholder shadowed by a later one with the same xref is never indexed, so it
      stays in the create list. */
  lemma ShadowedPlaceholderKept(create: seq<CreateOp>, update: seq<UpdateOp>, isSignal: bool, i: nat, j: nat)
    requires DistinctIds(create) && i < j < |create|
    requires create[i].kind.BindingSignalPlaceholder? && create[j].kind == create[i].kind
    requires !ProcessUnitSpec(create, update, isSignal).failed
    ensures create[i] in ProcessUnitSpec(create, update, isSignal).create
  {
    var x := create[i].kind.bindingXref;
    var index := Placeholders(create);
    var moved := if isSignal then PropertyFieldsFrom(map[], update) else map[];
    ProcessUnitMeaning(create, update, isSignal);
    PlaceholdersIndexLast(create);
    var k :| 0 <= k < |create| && create[k].id == index[x] && IsPlaceholder(create[k], x)
             && forall l :: k < l < |create| ==> !IsPlaceholder(create[l], x);
    assert index[x] != create[i].id;
    var substituted := Substituted(create, index, moved);
    assert substituted[i] == create[i];
    forall y | y in index - moved.Keys
      ensures (index - moved.Keys)[y] != create[i].id
    {
      if index[y] == create[i].id {
        IndexedOpIsPlaceholder(create, y, i);
      }
    }
  }

  /** For a non-signal job the phase only removes the indexed placeholders. */
  lemma NonSignalRemovesPlaceholders(create: seq<CreateOp>, update: seq<UpdateOp>)
    requires DistinctIds(create)
    ensures var r := ProcessUnitSpec(create, update, false);
            !r.failed && r.create == RemoveOps(create, Placeholders(create).Values)
            && forall op :: op in r.create ==> !(op.kind.BindingSignalPlaceholder? && op.kind.bindingXref in Placeholders(create)
                                                 && Placeholders(create)[op.kind.bindingXref] == op.id)
  {
    ProcessUnitMeaning(create, update, false);
  }

  // ---------------------------------------------------------------- the phase, imperative

  /** A `CompilationUnit`: its job's `isSignal` flag and its two op lists. */
  class CompilationUnit {
    const isSignal: bool
    var create: seq<CreateOp>
    var update: seq<UpdateOp>

    constructor(isSignal: bool, create: seq<CreateOp>, update: seq<UpdateOp>)
      ensures this.isSignal == isSignal && this.create == create && this.update == update
    {
      this.isSignal := isSignal;
      this.create := create;
      this.update := update;
    }
  }

  /** `processUnit`; `failed` is the thrown error, after which the create list is left as
      the throw found it. The update list is not changed. */
  method ProcessUnit(unit: CompilationUnit) returns (failed: bool)
    modifies unit`create
    ensures var r := ProcessUnitSpec(old(unit.create), unit.update, unit.isSignal);
            unit.create == r.create && failed == r.failed
  {
    var placeholders: map<XrefId, OpId> := map[];
    for k := 0 to |unit.create|
      invariant placeholders == Placeholders(unit.create[..k])
    {
      assert unit.create[..k + 1][..k] == unit.create[..k];
      var op := unit.create[k];
      if op.kind.BindingSignalPlaceholder? {
        placeholders := placeholders[op.kind.bindingXref := op.id];
      }
    }
    assert unit.create[..|unit.create|] == unit.create;

    if unit.isSignal {
      for k := 0 to |unit.update|
        invariant MoveProperties(old(unit.create), Placeholders(old(unit.create)), unit.update)
                  == MoveProperties(unit.create, placeholders, unit.update[k..])
      {
        var op := unit.update[k];
        assert unit.update[k..][1..] == unit.update[k + 1..];
        if op.Property? {
          var x := op.fields.bindingXref;
          if x !in placeholders {
            return true;
          }
          var id := placeholders[x];
          unit.create := Replace(unit.create, id, CreateOp(id, PropertyCreate(op.fields)));
          placeholders := placeholders - {x};
        }
      }
    }

    var remaining := placeholders.Values;
    ghost var removed: set<OpId> := {};
    ghost var moved := unit.create;
    RemoveOpsNothing(moved);
    while remaining != {}
      invariant unit.create == RemoveOps(moved, removed)
      invariant removed + remaining == placeholders.Values
      decreases |remaining|
    {
      var id :| id in remaining;
      RemoveOpsAgain(moved, removed, id);
      unit.create := RemoveOps(unit.create, {id});
      removed := removed + {id};
      remaining := remaining - {id};
    }
    failed := false;
  }

  /** `unit` holds what `processUnit` makes of the lists it had before the phase. */
  ghost predicate Processed(unit: CompilationUnit, create: seq<CreateOp>, update: seq<UpdateOp>)
    reads unit
  {
    unit.create == ProcessUnitSpec(create, update, unit.isSignal).create && unit.update == update
  }

  /** `phaseSignalBindings`: every unit in order, stopping at the first one that throws. */
  method PhaseSignalBindings(units: seq<CompilationUnit>) returns (failed: bool)
    requires forall i, j :: 0 <= i < j < |units| ==> units[i] != units[j]
    modifies set u | u in units
    ensures !failed ==> forall i :: 0 <= i < |units| ==> Processed(units[i], old(units[i].create), old(units[i].update))
    ensures failed ==>
              exists k ::
                && 0 <= k < |units|
                && ProcessUnitSpec(old(units[k].create), old(units[k].update), units[k].isSignal).failed
                && (forall i :: 0 <= i <= k ==> Processed(units[i], old(units[i].create), old(units[i].update)))
                && (forall i :: k < i < |units| ==> units[i].create == old(units[i].create))
    ensures forall i :: 0 <= i < |units| ==> units[i].update == old(units[i].update)
  {
    ghost var creates := seq(|units|, i requires 0 <= i < |units| reads units => units[i].create);
    ghost var updates := seq(|units|, i requires 0 <= i < |units| reads units => units[i].update);
    for k := 0 to |units|
      invariant forall i :: 0 <= i < |units| ==> units[i].update == updates[i]
      invariant forall i :: 0 <= i < k ==>
                  Processed(units[i], creates[i], updates[i]) && !ProcessUnitSpec(creates[i], updates[i], units[i].isSignal).failed
      invariant forall i :: k <= i < |units| ==> units[i].create == creates[i]
    {
      label Before:
      failed := ProcessUnit(units[k]);
      assert forall i :: 0 <= i < |units| && i != k ==> units[i].create == old@Before(units[i].create);
      if failed {
        assert Processed(units[k], creates[k], updates[k]);
        return;
      }
    }
    failed := false;
  }
}
