/** `MigrationResult` (result.ts): what the passes collect: the inputs declared in
    source files, the references to inputs, the inputs found incompatible, and the
    replacements per file. */
module MigrationResults {
  import opened Ast
  import opened Replacements
  import opened InputIds
  import opened InputReferences

  datatype IncompatibilityReason = WriteAssignment

  datatype Incompatibility = Incompatibility(reason: IncompatibilityReason, context: NodeId)

  /** The per-file lists after `addReplacement(file, r)`. */
  function WithReplacement(m: map<string, seq<Replacement>>, file: string, r: Replacement)
    : (m': map<string, seq<Replacement>>)
    ensures m'.Keys == m.Keys + {file}
    ensures forall f :: f in m && f != file ==> m'[f] == m[f]
    ensures file !in m ==> m'[file] == [r]
    ensures file in m ==> |m'[file]| == |m[file]| + 1 && m'[file][..|m[file]|] == m[file]
    ensures m'[file][|m'[file]| - 1] == r
  {
    if file in m then m[file := m[file] + [r]] else m[file := [r]]
  }

  /** Adding replacements one after another keeps them in call order. */
  lemma {:induction false} WithReplacementsInOrder(m: map<string, seq<Replacement>>, file: string,
                                                   r1: Replacement, r2: Replacement)
    requires file in m
    ensures WithReplacement(WithReplacement(m, file, r1), file, r2)[file] == m[file] + [r1, r2]
  {
    var m1 := WithReplacement(m, file, r1);
    assert m1[file] == m[file] + [r1];
    var m2 := WithReplacement(m1, file, r2);
    assert m2[file] == m1[file] + [r2];
  }

  /** A file's list of replacements, empty when it has none yet. */
  function ListOf(m: map<string, seq<Replacement>>, file: string): seq<Replacement> {
    if file in m then m[file] else []
  }

  /** The per-file lists after `addReplacement(file, r)` for each `r` of `rs` in turn. */
  function WithReplacements(m: map<string, seq<Replacement>>, file: string, rs: seq<Replacement>)
    : map<string, seq<Replacement>>
  {
    if rs == [] then m else WithReplacement(WithReplacements(m, file, rs[..|rs| - 1]), file, rs[|rs| - 1])
  }

  /** Adding to a file whose list was just set appends to that list. */
  lemma WithReplacementAfterUpdate(m: map<string, seq<Replacement>>, file: string, l: seq<Replacement>, r: Replacement)
    ensures WithReplacement(m[file := l], file, r) == m[file := l + [r]]
  {
    assert m[file := l][file := l + [r]] == m[file := l + [r]];
  }

  /** Repeated `addReplacement` calls append the replacements, in order, to the file's
      list (creating it only when there is something to add) and touch no other file. */
  lemma {:induction false} WithReplacementsAppends(m: map<string, seq<Replacement>>, file: string, rs: seq<Replacement>)
    ensures rs == [] ==> WithReplacements(m, file, rs) == m
    ensures rs != [] ==> WithReplacements(m, file, rs) == m[file := ListOf(m, file) + rs]
    decreases |rs|
  {
    if rs != [] {
      var init, last := rs[..|rs| - 1], rs[|rs| - 1];
      assert rs == init + [last];
      WithReplacementsAppends(m, file, init);
      if init != [] {
        WithReplacementAfterUpdate(m, file, ListOf(m, file) + init, last);
        assert ListOf(m, file) + init + [last] == ListOf(m, file) + rs;
      } else if file in m {
        assert m == m[file := m[file]];
        WithReplacementAfterUpdate(m, file, m[file], last);
      } else {
        assert ListOf(m, file) + rs == [last];
      }
    }
  }

  /** A replacement together with the file it is added to. */
  datatype Edit = Edit(file: string, replacement: Replacement)

  /** The per-file lists after adding each edit in turn. */
  function WithEdits(m: map<string, seq<Replacement>>, edits: seq<Edit>): map<string, seq<Replacement>> {
    if edits == [] then m
    else
      var last := edits[|edits| - 1];
      WithReplacement(WithEdits(m, edits[..|edits| - 1]), last.file, last.replacement)
  }

  lemma {:induction false} WithEditsConcat(m: map<string, seq<Replacement>>, a: seq<Edit>, b: seq<Edit>)
    ensures WithEdits(WithEdits(m, a), b) == WithEdits(m, a + b)
    decreases |b|
  {
    if b != [] {
      WithEditsConcat(m, a, b[..|b| - 1]);
      assert (a + b)[..|a + b| - 1] == a + b[..|b| - 1];
    } else {
      assert a + b == a;
    }
  }

  /** Spelled out for the solver, which otherwise spends long on it in large contexts. */
  lemma ConcatAssociative<T>(a: seq<T>, b: seq<T>, c: seq<T>)
    ensures a + b + c == a + (b + c)
  {
  }

  class MigrationResult {
    var sourceInputs: set<InputId>
    var references: seq<InputReference>
    var incompatibleInputs: map<InputId, Incompatibility>
    var replacements: map<string, seq<Replacement>>

    constructor()
      ensures sourceInputs == {} && references == [] && incompatibleInputs == map[] && replacements == map[]
    {
      sourceInputs := {};
      references := [];
      incompatibleInputs := map[];
      replacements := map[];
    }

    /** `addReplacement`: appends to the file's list, creating it when missing; other files' lists stay. */
    method AddReplacement(file: string, r: Replacement)
      modifies this`replacements
      ensures replacements == WithReplacement(old(replacements), file, r)
    {
      if file in replacements {
        replacements := replacements[file := replacements[file] + [r]];
      } else {
        replacements := replacements[file := [r]];
      }
    }

    /** `sourceInputs.add` */
    method AddSourceInput(id: InputId)
      modifies this`sourceInputs
      ensures sourceInputs == old(sourceInputs) + {id}
    {
      sourceInputs := sourceInputs + {id};
    }

    /** `references.push` */
    method AddReference(ref: InputReference)
      modifies this`references
      ensures references == old(references) + [ref]
    {
      references := references + [ref];
    }

    /** `incompatibleInputs.set`: a later incompatibility for the same input overwrites the earlier one. */
    method MarkIncompatible(id: InputId, info: Incompatibility)
      modifies this`incompatibleInputs
      ensures incompatibleInputs == old(incompatibleInputs)[id := info]
      ensures incompatibleInputs[id] == info
      ensures forall other :: other in old(incompatibleInputs) && other != id ==>
                other in incompatibleInputs && incompatibleInputs[other] == old(incompatibleInputs)[other]
    {
      incompatibleInputs := incompatibleInputs[id := info];
    }
  }
}
