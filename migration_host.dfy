/** `MigrationHost` (migration_host.ts): the project directory the migration runs in,
    and `fileToId`, which turns a source file or a path into the project-relative id
    the passes use to name files. */
module MigrationHosts {
  import opened Wrappers
  import opened Strings
  import Ast

  /** The argument of `fileToId`: `ts.SourceFile | string`. */
  datatype FileRef = PathRef(path: string) | SourceFileRef(file: Ast.FileInfo)

  /** The host's read-only configuration. */
  datatype MigrationHost = MigrationHost(projectDir: string, singleExecutionMode: bool)

  /** `path.relative(from, to)`, which belongs to Node's path module, is a parameter. */
  type RelativePath = (string, string) -> string

  /** The first index at or after `from` where `pattern` occurs in `s`. */
  function FirstMatch(s: string, pattern: string, from: nat): (r: Option<nat>)
    requires |pattern| > 0
    ensures r.Some? ==> from <= r.value && MatchAt(s, pattern, r.value)
    ensures r.Some? ==> forall i: nat :: from <= i < r.value ==> !MatchAt(s, pattern, i)
    ensures r.None? ==> forall i: nat :: from <= i ==> !MatchAt(s, pattern, i)
    decreases |s| - from
  {
    if from + |pattern| > |s| then None
    else if s[from..from + |pattern|] == pattern then Some(from)
    else FirstMatch(s, pattern, from + 1)
  }

  /** `s.replace(/pattern/, replacement)`: only the first occurrence is replaced. */
  function ReplaceFirst(s: string, pattern: string, replacement: string): (r: string)
    requires |pattern| > 0
    ensures (forall i: nat :: !MatchAt(s, pattern, i)) ==> r == s
    ensures forall i: nat :: MatchAt(s, pattern, i) && (forall j: nat :: j < i ==> !MatchAt(s, pattern, j)) ==>
              r == s[..i] + replacement + s[i + |pattern|..]
  {
    match FirstMatch(s, pattern, 0)
    case None => s
    case Some(i) => s[..i] + replacement + s[i + |pattern|..]
  }

  /** The file name `fileToId` makes relative: a string is taken verbatim, a declaration
      file has its first `.d.ts` turned into `.ts`, any other source file its own name. */
  function FileNameForId(file: FileRef): string {
    match file
    case PathRef(p) => p
    case SourceFileRef(sf) =>
      if sf.isDeclarationFile then ReplaceFirst(sf.fileName, ".d.ts", ".ts") else sf.fileName
  }

  function FileToId(host: MigrationHost, file: FileRef, relative: RelativePath): string {
    relative(host.projectDir, FileNameForId(file))
  }

  /** A string argument is used verbatim, even when it names a `.d.ts` file. */
  lemma FileToIdOfPath(host: MigrationHost, p: string, relative: RelativePath)
    ensures FileToId(host, PathRef(p), relative) == relative(host.projectDir, p)
  {
  }

  /** A declaration file `p.d.ts` and the source file `p.ts` get the same id, provided
      `.d.ts` first occurs at the end of the declaration file's name. */
  lemma {:induction false} DeclarationFileSharesId(host: MigrationHost, p: string, text1: string, text2: string,
                                                   relative: RelativePath)
    requires forall i: nat :: i < |p| ==> !MatchAt(p + ".d.ts", ".d.ts", i)
    ensures FileToId(host, SourceFileRef(Ast.FileInfo(p + ".d.ts", true, text1)), relative)
         == FileToId(host, SourceFileRef(Ast.FileInfo(p + ".ts", false, text2)), relative)
  {
    var s := p + ".d.ts";
    assert MatchAt(s, ".d.ts", |p|) by { assert s[|p|..|p| + 5] == ".d.ts"; }
    assert s[..|p|] == p;
    assert s[|p| + 5..] == "";
    assert ReplaceFirst(s, ".d.ts", ".ts") == p + ".ts";
  }

  /** A declaration file's id never keeps the first `.d.ts` of its name in place. */
  lemma DeclarationFileNameRewritten(sf: Ast.FileInfo, i: nat)
    requires sf.isDeclarationFile
    requires MatchAt(sf.fileName, ".d.ts", i) && forall j: nat :: j < i ==> !MatchAt(sf.fileName, ".d.ts", j)
    ensures FileNameForId(SourceFileRef(sf)) == sf.fileName[..i] + ".ts" + sf.fileName[i + 5..]
  {
  }
}
