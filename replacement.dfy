/** Text splices (`Replacement`) and their application to a file's text
    (`applyReplacements`, replacement.ts). The MagicString buffer the source edits
    is modelled by `TextBuffer`: for every original character whether it is still
    kept, and for every position the text appended to the left of it. */
module Replacements {

  /** Delete the original characters in [pos, end) and insert `toInsert` at `pos`. */
  datatype Replacement = Replacement(pos: int, end: int, toInsert: string)

  /** MagicString refuses spans outside the text and spans that end before they start. */
  predicate InBounds(r: Replacement, n: nat) {
    0 <= r.pos <= r.end <= n
  }

  predicate AllInBounds(reps: seq<Replacement>, n: nat) {
    forall i :: 0 <= i < |reps| ==> InBounds(reps[i], n)
  }

  // ---------------------------------------------------------------------------
  // Rendering a buffer state

  /** The text from original position `k` on: the text inserted at each position,
      followed by the original character there when it is kept. */
  function RenderFrom(s: string, kept: seq<bool>, inserted: seq<string>, k: nat): string
    requires |kept| == |s| && |inserted| == |s| + 1 && k <= |s|
    decreases |s| - k
  {
    if k == |s| then inserted[k]
    else inserted[k] + (if kept[k] then [s[k]] else []) + RenderFrom(s, kept, inserted, k + 1)
  }

  function Render(s: string, kept: seq<bool>, inserted: seq<string>): string
    requires |kept| == |s| && |inserted| == |s| + 1
  {
    RenderFrom(s, kept, inserted, 0)
  }

  // ---------------------------------------------------------------------------
  // The state a list of replacements leaves behind, position by position

  /** Original character `k` survives iff no replacement's span covers it. */
  predicate Kept(reps: seq<Replacement>, k: int)
    decreases |reps|
  {
    reps == [] ||
    (Kept(reps[..|reps| - 1], k) && !(reps[|reps| - 1].pos <= k < reps[|reps| - 1].end))
  }

  /** The texts of the replacements positioned at `k`, in list order, except that a
      replacement whose span [pos, end) has pos < k <= end first clears what was
      appended at `k` before it: MagicString's `remove` empties the outro of every chunk
      it removes, and text appended to the left of `k` is the outro of the chunk ending at `k`. */
  function InsertedAt(reps: seq<Replacement>, k: int): string
    decreases |reps|
  {
    if reps == [] then ""
    else
      var r := reps[|reps| - 1];
      (if r.pos < k <= r.end then "" else InsertedAt(reps[..|reps| - 1], k)) +
      (if r.pos == k then r.toInsert else "")
  }

  /** The text a list of replacements produces, independently of how the buffer is edited. */
  function Applied(s: string, reps: seq<Replacement>): string {
    Render(s, seq(|s|, k => Kept(reps, k)), seq(|s| + 1, k => InsertedAt(reps, k)))
  }

  // ---------------------------------------------------------------------------
  // The MagicString buffer

  class TextBuffer {
    const original: string
    var kept: seq<bool>
    var inserted: seq<string>

    ghost predicate Valid()
      reads this
    {
      |kept| == |original| && |inserted| == |original| + 1
    }

    constructor (input: string)
      ensures Valid() && original == input
      ensures forall k :: 0 <= k < |kept| ==> kept[k]
      ensures forall k :: 0 <= k < |inserted| ==> inserted[k] == ""
    {
      original := input;
      kept := seq(|input|, _ => true);
      inserted := seq(|input| + 1, _ => "");
    }

    /** `remove(pos, end)`: the original characters in [pos, end) are dropped, and so is
        the text appended earlier at any position after `pos` up to `end` (the outros of
        the removed chunks). An empty span changes nothing. */
    method Remove(pos: int, end: int)
      requires Valid() && 0 <= pos <= end <= |original|
      modifies this
      ensures Valid()
      ensures forall k :: 0 <= k < |kept| ==> kept[k] == (old(kept)[k] && !(pos <= k < end))
      ensures forall k :: 0 <= k < |inserted| ==> inserted[k] == (if pos < k <= end then "" else old(inserted)[k])
    {
      var was, had := kept, inserted;
      kept := seq(|was|, k requires 0 <= k < |was| => was[k] && !(pos <= k < end));
      inserted := seq(|had|, k requires 0 <= k < |had| => if pos < k <= end then "" else had[k]);
    }

    /** `appendLeft(pos, text)`: `text` goes after whatever was already inserted at `pos`. */
    method AppendLeft(pos: int, text: string)
      requires Valid() && 0 <= pos <= |original|
      modifies this
      ensures Valid() && kept == old(kept)
      ensures inserted == old(inserted)[pos := old(inserted)[pos] + text]
    {
      inserted := inserted[pos := inserted[pos] + text];
    }

    function ToString(): string
      reads this
      requires Valid()
    {
      Render(original, kept, inserted)
    }
  }

  /** `applyReplacements`: every replacement, in list order, removes its span and
      appends its text at its start. */
  method ApplyReplacements(input: string, replacements: seq<Replacement>) returns (output: string)
    requires AllInBounds(replacements, |input|)
    ensures output == Applied(input, replacements)
  {
    var res := new TextBuffer(input);
    var i := 0;
    while i < |replacements|
      invariant 0 <= i <= |replacements|
      invariant res.Valid() && res.original == input
      invariant forall k :: 0 <= k < |input| ==> res.kept[k] == Kept(replacements[..i], k)
      invariant forall k :: 0 <= k <= |input| ==> res.inserted[k] == InsertedAt(replacements[..i], k)
    {
      var r := replacements[i];
      assert replacements[..i + 1][..i] == replacements[..i];
      res.Remove(r.pos, r.end);
      res.AppendLeft(r.pos, r.toInsert);
      i := i + 1;
    }
    assert replacements[..i] == replacements;
    assert res.kept == seq(|input|, k => Kept(replacements, k));
    assert res.inserted == seq(|input| + 1, k => InsertedAt(replacements, k));
    output := res.ToString();
  }

  // ---------------------------------------------------------------------------
  // What the applied text looks like

  /** A stretch of untouched positions renders as the original text. */
  lemma {:induction false} RenderUntouched(s: string, kept: seq<bool>, inserted: seq<string>, a: nat, b: nat)
    requires |kept| == |s| && |inserted| == |s| + 1 && a <= b <= |s|
    requires forall k :: a <= k < b ==> kept[k] && inserted[k] == ""
    ensures RenderFrom(s, kept, inserted, a) == s[a..b] + RenderFrom(s, kept, inserted, b)
    decreases b - a
  {
    if a < b {
      var rest := RenderFrom(s, kept, inserted, b);
      RenderUntouched(s, kept, inserted, a + 1, b);
      assert RenderFrom(s, kept, inserted, a) == inserted[a] + [s[a]] + RenderFrom(s, kept, inserted, a + 1);
      assert inserted[a] == "";
      assert s[a..b] == [s[a]] + s[a + 1..b];
      calc {
        RenderFrom(s, kept, inserted, a);
        [s[a]] + (s[a + 1..b] + rest);
        ([s[a]] + s[a + 1..b]) + rest;
        s[a..b] + rest;
      }
    }
  }

  /** A deleted stretch with nothing inserted inside it renders as what was inserted at its start. */
  lemma {:induction false} RenderDeleted(s: string, kept: seq<bool>, inserted: seq<string>, a: nat, b: nat)
    requires |kept| == |s| && |inserted| == |s| + 1 && a < b <= |s|
    requires forall k :: a <= k < b ==> !kept[k]
    requires forall k :: a < k < b ==> inserted[k] == ""
    ensures RenderFrom(s, kept, inserted, a) == inserted[a] + RenderFrom(s, kept, inserted, b)
    decreases b - a
  {
    if a + 1 < b {
      RenderDeleted(s, kept, inserted, a + 1, b);
    }
  }

  /** Applying no replacement returns the input text unchanged. */
  lemma ApplyNone(s: string)
    ensures Applied(s, []) == s
  {
    var kept := seq(|s|, k => Kept([], k));
    var inserted := seq(|s| + 1, k => InsertedAt([], k));
    RenderUntouched(s, kept, inserted, 0, |s|);
  }

  /** Replacements sorted by position whose spans do not overlap, starting at or after `from`. */
  predicate Ordered(reps: seq<Replacement>, from: int, n: nat)
    decreases |reps|
  {
    reps == [] ||
    (from <= reps[0].pos <= reps[0].end <= n && Ordered(reps[1..], reps[0].end, n))
  }

  /** Reference definition: splice ordered replacements into `s`, left to right,
      copying the original text between them. */
  function SpliceFrom(s: string, reps: seq<Replacement>, from: nat): string
    requires from <= |s| && Ordered(reps, from, |s|)
    decreases |reps|
  {
    if reps == [] then s[from..]
    else s[from..reps[0].pos] + reps[0].toInsert + SpliceFrom(s, reps[1..], reps[0].end)
  }

  lemma {:induction false} OrderedBounds(reps: seq<Replacement>, from: int, n: nat, i: nat)
    requires Ordered(reps, from, n) && i < |reps|
    ensures from <= reps[i].pos <= reps[i].end <= n
    ensures forall j :: i < j < |reps| ==> reps[i].end <= reps[j].pos
    decreases |reps|
  {
    if i > 0 {
      OrderedBounds(reps[1..], reps[0].end, n, i - 1);
      assert reps[0].end <= reps[i].pos;
      forall j | i < j < |reps| ensures reps[i].end <= reps[j].pos {
        assert reps[1..][j - 1] == reps[j];
      }
    } else if |reps| > 1 {
      forall j | 0 < j < |reps| ensures reps[0].end <= reps[j].pos {
        OrderedBounds(reps[1..], reps[0].end, n, j - 1);
      }
    }
  }

  /** Kept and InsertedAt read as "some replacement covers k" and "the texts at k". */
  lemma {:induction false} KeptIff(reps: seq<Replacement>, k: int)
    ensures Kept(reps, k) <==> forall i :: 0 <= i < |reps| ==> !(reps[i].pos <= k < reps[i].end)
    decreases |reps|
  {
    if reps != [] {
      var init := reps[..|reps| - 1];
      KeptIff(init, k);
      assert forall i :: 0 <= i < |init| ==> init[i] == reps[i];
    }
  }

  /** The text `r` appends at `k` survives the replacements after it when none of
      their spans clears `k`. */
  lemma {:induction false} InsertedAtCons(r: Replacement, rest: seq<Replacement>, k: int)
    requires r.pos == k ==> forall i :: 0 <= i < |rest| ==> !(rest[i].pos < k <= rest[i].end)
    ensures InsertedAt([r] + rest, k) == (if r.pos == k then r.toInsert else "") + InsertedAt(rest, k)
    decreases |rest|
  {
    if rest != [] {
      var init := rest[..|rest| - 1];
      assert ([r] + rest)[..|rest|] == [r] + init;
      assert ([r] + rest)[|rest|] == rest[|rest| - 1];
      assert forall i :: 0 <= i < |init| ==> init[i] == rest[i];
      InsertedAtCons(r, init, k);
    } else {
      assert [r][..0] == [];
    }
  }

  lemma KeptCons(r: Replacement, rest: seq<Replacement>, k: int)
    ensures Kept([r] + rest, k) == (!(r.pos <= k < r.end) && Kept(rest, k))
  {
    var all := [r] + rest;
    KeptIff(all, k);
    KeptIff(rest, k);
    assert all[0] == r;
    if Kept(rest, k) && !(r.pos <= k < r.end) {
      forall i | 0 <= i < |all| ensures !(all[i].pos <= k < all[i].end) {
        if i > 0 { assert all[i] == rest[i - 1]; }
      }
    }
    if Kept(all, k) {
      forall i | 0 <= i < |rest| ensures !(rest[i].pos <= k < rest[i].end) {
        assert all[i + 1] == rest[i];
      }
    }
  }

  /** Rendering from `from` reads only the positions at or after `from`. */
  lemma {:induction false} RenderAgree(s: string, k1: seq<bool>, i1: seq<string>, k2: seq<bool>, i2: seq<string>, from: nat)
    requires |k1| == |k2| == |s| && |i1| == |i2| == |s| + 1 && from <= |s|
    requires forall k :: from <= k < |s| ==> k1[k] == k2[k]
    requires forall k :: from <= k <= |s| ==> i1[k] == i2[k]
    ensures RenderFrom(s, k1, i1, from) == RenderFrom(s, k2, i2, from)
    decreases |s| - from
  {
    if from < |s| {
      RenderAgree(s, k1, i1, k2, i2, from + 1);
    }
  }

  /** The texts a list of replacements leaves, position by position. */
  function KeptVector(s: string, reps: seq<Replacement>): seq<bool> {
    seq(|s|, k => Kept(reps, k))
  }

  function InsertedVector(s: string, reps: seq<Replacement>): seq<string> {
    seq(|s| + 1, k => InsertedAt(reps, k))
  }

  /** One replacement `r` in front of the state `kr`/`ir` of the replacements after it: the
      text before `r` survives, `r`'s span goes, and its text comes in its place. */
  lemma RenderConsStep(s: string, kv: seq<bool>, iv: seq<string>, kr: seq<bool>, ir: seq<string>,
                       r: Replacement, from: nat)
    requires |kv| == |kr| == |s| && |iv| == |ir| == |s| + 1
    requires from <= r.pos <= r.end <= |s|
    requires forall k :: from <= k < r.pos ==> kv[k] && iv[k] == ""
    requires forall k :: r.pos <= k < r.end ==> !kv[k]
    requires forall k :: r.pos < k < r.end ==> iv[k] == ""
    requires forall k :: r.end <= k < |s| ==> kv[k] == kr[k]
    requires forall k :: r.pos < k <= |s| && r.end <= k ==> iv[k] == ir[k]
    requires iv[r.pos] == r.toInsert + ir[r.pos]
    requires r.pos < r.end ==> ir[r.pos] == ""
    ensures RenderFrom(s, kv, iv, from) == s[from..r.pos] + r.toInsert + RenderFrom(s, kr, ir, r.end)
  {
    RenderUntouched(s, kv, iv, from, r.pos);
    RenderReplaced(s, kv, iv, kr, ir, r);
  }

  /** From `r`'s start: its text, then the state after it. */
  lemma RenderReplaced(s: string, kv: seq<bool>, iv: seq<string>, kr: seq<bool>, ir: seq<string>, r: Replacement)
    requires |kv| == |kr| == |s| && |iv| == |ir| == |s| + 1
    requires 0 <= r.pos <= r.end <= |s|
    requires forall k :: r.pos <= k < r.end ==> !kv[k]
    requires forall k :: r.pos < k < r.end ==> iv[k] == ""
    requires forall k :: r.end <= k < |s| ==> kv[k] == kr[k]
    requires forall k :: r.pos < k <= |s| && r.end <= k ==> iv[k] == ir[k]
    requires iv[r.pos] == r.toInsert + ir[r.pos]
    requires r.pos < r.end ==> ir[r.pos] == ""
    ensures RenderFrom(s, kv, iv, r.pos) == r.toInsert + RenderFrom(s, kr, ir, r.end)
  {
    if r.pos < r.end {
      RenderDeleted(s, kv, iv, r.pos, r.end);
      RenderAgree(s, kv, iv, kr, ir, r.end);
      assert iv[r.pos] == r.toInsert by {
        assert r.toInsert + "" == r.toInsert;
      }
    } else {
      RenderShift(s, kv, iv, kr, ir, r.pos, r.toInsert);
    }
  }

  /** For ordered, non-overlapping replacements the buffer's text is the left-to-right splice. */
  lemma {:induction false} RenderIsSplice(s: string, reps: seq<Replacement>, from: nat)
    requires from <= |s| && Ordered(reps, from, |s|)
    ensures RenderFrom(s, KeptVector(s, reps), InsertedVector(s, reps), from) == SpliceFrom(s, reps, from)
    decreases |reps|
  {
    var kv, iv := KeptVector(s, reps), InsertedVector(s, reps);
    if reps == [] {
      forall k | 0 <= k < |s| ensures kv[k] { KeptIff(reps, k); }
      RenderUntouched(s, kv, iv, from, |s|);
      assert s[from..|s|] == s[from..];
    } else {
      var r, rest := reps[0], reps[1..];
      assert reps == [r] + rest;
      var kr, ir := KeptVector(s, rest), InsertedVector(s, rest);
      forall i | 0 <= i < |rest| ensures r.end <= rest[i].pos {
        OrderedBounds(rest, r.end, |s|, i);
      }
      forall k | 0 <= k < |s| ensures kv[k] == (!(r.pos <= k < r.end) && kr[k]) {
        KeptCons(r, rest, k);
      }
      forall k | 0 <= k <= |s| ensures iv[k] == (if r.pos == k then r.toInsert else "") + ir[k] {
        InsertedAtCons(r, rest, k);
      }
      forall k | from <= k < r.pos ensures kr[k] && ir[k] == "" {
        KeptIff(rest, k);
        InsertedAtNone(rest, k);
      }
      forall k | 0 <= k < r.end ensures ir[k] == "" {
        InsertedAtNone(rest, k);
      }
      RenderIsSplice(s, rest, r.end);
      RenderConsStep(s, kv, iv, kr, ir, r, from);
    }
  }

  lemma {:induction false} InsertedAtNone(reps: seq<Replacement>, k: int)
    requires forall i :: 0 <= i < |reps| ==> reps[i].pos != k
    ensures InsertedAt(reps, k) == ""
    decreases |reps|
  {
    if reps != [] {
      InsertedAtNone(reps[..|reps| - 1], k);
    }
  }

  /** Two states that differ only by a prefix `t` of the text inserted at `p`. */
  lemma RenderShift(s: string, k1: seq<bool>, i1: seq<string>, k2: seq<bool>, i2: seq<string>, p: nat, t: string)
    requires |k1| == |k2| == |s| && |i1| == |i2| == |s| + 1 && p <= |s|
    requires forall k :: p <= k < |s| ==> k1[k] == k2[k]
    requires forall k :: p < k <= |s| ==> i1[k] == i2[k]
    requires i1[p] == t + i2[p]
    ensures RenderFrom(s, k1, i1, p) == t + RenderFrom(s, k2, i2, p)
  {
    if p < |s| {
      RenderAgree(s, k1, i1, k2, i2, p + 1);
      PrefixMovesOut(i1[p], t, i2[p], if k1[p] then [s[p]] else [], RenderFrom(s, k2, i2, p + 1));
    }
  }

  lemma PrefixMovesOut(a: string, t: string, x: string, c: string, tail: string)
    requires a == t + x
    ensures a + c + tail == t + (x + c + tail)
  {
  }

  /** Ordered, non-overlapping replacements: the applied text is the original text with
      every span replaced by its text, everything between the spans surviving in order. */
  lemma ApplyOrdered(s: string, reps: seq<Replacement>)
    requires Ordered(reps, 0, |s|)
    ensures Applied(s, reps) == SpliceFrom(s, reps, 0)
  {
    RenderIsSplice(s, reps, 0);
  }

  /** A replacement whose span ends where an earlier one inserted text removes that
      text with its span: `()` appended after `a` in "ab" is lost once "a" is replaced. */
  lemma LaterSpanClearsInsertionAtItsEnd()
    ensures Applied("ab", [Replacement(1, 1, "()"), Replacement(0, 1, "t")]) == "tb"
    ensures Applied("ab", [Replacement(0, 1, "t"), Replacement(1, 1, "()")]) == "t()b"
  {
    var s := "ab";
    var a := [Replacement(1, 1, "()"), Replacement(0, 1, "t")];
    var b := [Replacement(0, 1, "t"), Replacement(1, 1, "()")];
    assert a[..1] == [a[0]] && b[..1] == [b[0]];
    assert [a[0]][..0] == [] && [b[0]][..0] == [];
    assert InsertedAt(a, 0) == "t" && InsertedAt(a, 1) == "" && InsertedAt(a, 2) == "";
    assert !Kept(a, 0) && Kept(a, 1);
    assert InsertedAt(b, 0) == "t" && InsertedAt(b, 1) == "()" && InsertedAt(b, 2) == "";
    assert !Kept(b, 0) && Kept(b, 1);
    assert InsertedVector(s, a) == ["t", "", ""];
    assert KeptVector(s, a) == [false, true];
    assert InsertedVector(s, b) == ["t", "()", ""];
    assert KeptVector(s, b) == [false, true];
  }

  /** One replacement deletes exactly [pos, end) and inserts its text at pos; a
      zero-width one only inserts. */
  lemma ApplyOne(s: string, r: Replacement)
    requires InBounds(r, |s|)
    ensures Applied(s, [r]) == s[..r.pos] + r.toInsert + s[r.end..]
    ensures r.pos == r.end ==> Applied(s, [r]) == s[..r.pos] + r.toInsert + s[r.pos..]
  {
    assert Ordered([r][1..], r.end, |s|);
    ApplyOrdered(s, [r]);
  }
}
