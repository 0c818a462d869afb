/** The Bazel helper that turns an `ng_module` tsconfig into one for partial compilation
    (bazel/src/ng_module/create_partial_compilation_tsconfig.js): Ivy on, compilation mode
    `partial`, and each expected `.js`/`.mjs` output renamed to `.ivy-partial.js`. */
module PartialCompilationTsconfig {
  import opened Wrappers
  import opened Strings

  /** A parsed JSON value. */
  datatype Json =
    | JNull
    | JBool(b: bool)
    | JNumber(n: int)
    | JString(s: string)
    | JArray(items: seq<Json>)
    | JObject(properties: map<string, Json>)

  const PartialSuffix := ".ivy-partial.js"

  /** A name ends in `.js` or in `.mjs`, never in both. */
  lemma SuffixesExclusive(f: string)
    ensures !(EndsWith(f, ".js") && EndsWith(f, ".mjs"))
  {
    if EndsWith(f, ".js") {
      assert f[|f| - 3] == '.';
    }
  }

  /** `f.replace(/\.(m)?js$/, '.ivy-partial.js')` */
  function PartialOutputName(f: string): (r: string)
    ensures EndsWith(f, ".js") ==> r == f[..|f| - 3] + PartialSuffix
    ensures EndsWith(f, ".mjs") ==> r == f[..|f| - 4] + PartialSuffix
    ensures !EndsWith(f, ".js") && !EndsWith(f, ".mjs") ==> r == f
  {
    SuffixesExclusive(f);
    if EndsWith(f, ".js") then f[..|f| - 3] + PartialSuffix
    else if EndsWith(f, ".mjs") then f[..|f| - 4] + PartialSuffix
    else f
  }

  /** The stem is kept and the result ends in `.ivy-partial.js` when a replacement applied. */
  lemma PartialOutputNameStem(f: string)
    ensures var r := PartialOutputName(f);
            && (EndsWith(f, ".js") || EndsWith(f, ".mjs") ==> EndsWith(r, PartialSuffix))
            && (EndsWith(f, ".js") ==> |r| == |f| + 12 && r[..|f| - 3] == f[..|f| - 3])
            && (EndsWith(f, ".mjs") ==> |r| == |f| + 11 && r[..|f| - 4] == f[..|f| - 4])
  {
    var r := PartialOutputName(f);
    if EndsWith(f, ".js") || EndsWith(f, ".mjs") {
      assert r[|r| - |PartialSuffix|..] == PartialSuffix;
    }
  }

  /** A renamed output ends in `.js` again, so a second run renames it once more and the
      name grows by another `.ivy-partial`: the helper is meant to run once on each
      tsconfig. */
  lemma {:induction false} PartialOutputNameNotIdempotent(f: string)
    requires EndsWith(f, ".js") || EndsWith(f, ".mjs")
    ensures var once := PartialOutputName(f);
            && PartialOutputName(once) == once[..|once| - 3] + PartialSuffix
            && |PartialOutputName(once)| == |once| + 12
            && PartialOutputName(once) != once
  {
    var once := PartialOutputName(f);
    PartialOutputNameStem(f);
    assert once[|once| - 3..] == PartialSuffix[|PartialSuffix| - 3..] by {
      assert once[|once| - |PartialSuffix|..] == PartialSuffix;
    }
    assert EndsWith(once, ".js");
  }

  /** Whether `.map(f => f.replace(...))` can run: an array of strings. */
  predicate RenamableOutputs(v: Json) {
    v.JArray? && forall i :: 0 <= i < |v.items| ==> v.items[i].JString?
  }

  function RenamedOutputs(items: seq<Json>): (r: seq<Json>)
    requires forall i :: 0 <= i < |items| ==> items[i].JString?
    ensures |r| == |items|
    ensures forall i :: 0 <= i < |r| ==> r[i] == JString(PartialOutputName(items[i].s))
  {
    seq(|items|, i requires 0 <= i < |items| => JString(PartialOutputName(items[i].s)))
  }

  /** The `angularCompilerOptions` object of the parsed tsconfig, changed in place. */
  class AngularCompilerOptions {
    var properties: map<string, Json>

    constructor(properties: map<string, Json>)
      ensures this.properties == properties
    {
      this.properties := properties;
    }

    /** Lines 15-18 of `main`. `ok` is false where `.map` or `.replace` throws: no
        `expectedOut` array, or an entry that is not a string. The two flags are set
        before that. */
    method MakePartial() returns (ok: bool)
      modifies this
      ensures var flagged := old(properties)["enableIvy" := JBool(true)]["compilationMode" := JString("partial")];
              && (ok <==> "expectedOut" in old(properties) && RenamableOutputs(old(properties)["expectedOut"]))
              && (!ok ==> properties == flagged)
              && (ok ==> properties == flagged["expectedOut" := JArray(RenamedOutputs(old(properties)["expectedOut"].items))])
    {
      properties := properties["enableIvy" := JBool(true)];
      properties := properties["compilationMode" := JString("partial")];
      if "expectedOut" !in properties || !RenamableOutputs(properties["expectedOut"]) {
        return false;
      }
      properties := properties["expectedOut" := JArray(RenamedOutputs(properties["expectedOut"].items))];
      ok := true;
    }
  }

  /** `main` between the read and the write: the tsconfig that is written, or `none` when
      `main` throws before writing. */
  method PartialTsconfig(data: map<string, Json>) returns (written: Option<map<string, Json>>)
    ensures written.Some? <==> "angularCompilerOptions" in data && data["angularCompilerOptions"].JObject?
                               && var options := data["angularCompilerOptions"].properties;
                                  "expectedOut" in options && RenamableOutputs(options["expectedOut"])
    ensures written.Some? ==> written.value == data["angularCompilerOptions" := JObject(PartialOptions(data["angularCompilerOptions"].properties))]
  {
    if "angularCompilerOptions" !in data || !data["angularCompilerOptions"].JObject? {
      return None;
    }
    var options := new AngularCompilerOptions(data["angularCompilerOptions"].properties);
    var ok := options.MakePartial();
    if !ok {
      return None;
    }
    written := Some(data["angularCompilerOptions" := JObject(options.properties)]);
  }

  /** The compiler options once rewritten. */
  function PartialOptions(options: map<string, Json>): map<string, Json>
    requires "expectedOut" in options && RenamableOutputs(options["expectedOut"])
  {
    options["enableIvy" := JBool(true)]["compilationMode" := JString("partial")]
           ["expectedOut" := JArray(RenamedOutputs(options["expectedOut"].items))]
  }

  /** The rewrite sets the two flags, keeps `expectedOut`'s length and order with each entry
      renamed, and changes no other property of the options or of the tsconfig. */
  lemma PartialOptionsMeaning(data: map<string, Json>)
    requires "angularCompilerOptions" in data && data["angularCompilerOptions"].JObject?
    requires var options := data["angularCompilerOptions"].properties;
             "expectedOut" in options && RenamableOutputs(options["expectedOut"])
    ensures var options := data["angularCompilerOptions"].properties;
            var written := data["angularCompilerOptions" := JObject(PartialOptions(options))];
            var rewritten := written["angularCompilerOptions"].properties;
            && written.Keys == data.Keys
            && (forall k :: k in data && k != "angularCompilerOptions" ==> written[k] == data[k])
            && rewritten.Keys == options.Keys + {"enableIvy", "compilationMode"}
            && rewritten["enableIvy"] == JBool(true) && rewritten["compilationMode"] == JString("partial")
            && (forall k :: k in options && k !in {"enableIvy", "compilationMode", "expectedOut"} ==> rewritten[k] == options[k])
            && rewritten["expectedOut"].JArray?
            && |rewritten["expectedOut"].items| == |options["expectedOut"].items|
            && forall i :: 0 <= i < |options["expectedOut"].items| ==>
                 rewritten["expectedOut"].items[i] == JString(PartialOutputName(options["expectedOut"].items[i].s))
  {
  }
}
