/** `getInputId` (utils/input_id.ts): the string id of an input is the id of its
    file, the class part and the name part, joined by `@@`. */
module InputIds {
  import opened Wrappers
  import opened Ast
  import MigrationHosts

  /** `InputId`. `id` is always set by `getInputId`; `node` is the property declaration. */
  datatype InputId = InputId(id: string, node: NodeId)

  /** How a template literal renders a name node (`${node.name}`); kept opaque. */
  type NodeText = NodeId -> string

  /** The three parts an id is made of. */
  datatype IdParts = IdParts(fileId: string, classPart: string, namePart: string)

  predicate NoAt(s: string) {
    forall i :: 0 <= i < |s| ==> s[i] != '@'
  }

  /** `node.parent.name ?? '<anonymous>'` */
  function ClassPart(t: Tree, node: NodeId, show: NodeText): string
    requires WellFormed(t) && node in t && !t[node].kind.SourceFile?
  {
    var p := ParentOf(t, node);
    match t[p].name
    case Some(n) => show(n)
    case None => "<anonymous>"
  }

  /** `ts.isIdentifier(node.name) ? node.name : '<non-identifier-name>'` */
  function NamePart(t: Tree, node: NodeId, show: NodeText): string
    requires node in t
  {
    var n := t[node];
    if n.name.Some? && IsIdentifier(t, n.name.value) then show(n.name.value) else "<non-identifier-name>"
  }

  function FileIdOf(host: MigrationHosts.MigrationHost, t: Tree, node: NodeId,
                    relative: MigrationHosts.RelativePath): string
    requires node in t
  {
    MigrationHosts.FileToId(host, MigrationHosts.SourceFileRef(t[node].file), relative)
  }

  function JoinIdParts(p: IdParts): string {
    p.fileId + "@@" + p.classPart + "@@" + p.namePart
  }

  /** `getInputId`: the record keeps the declaration node, and its id reads back as
      the file id, the class part and the name part whenever the two parts are free of `@`. */
  function GetInputId(host: MigrationHosts.MigrationHost, t: Tree, node: NodeId, show: NodeText,
                      relative: MigrationHosts.RelativePath): (r: InputId)
    requires WellFormed(t) && node in t && t[node].kind.PropertyDeclaration?
    ensures r.node == node
    ensures NoAt(ClassPart(t, node, show)) && NoAt(NamePart(t, node, show)) ==>
              ParseInputId(r.id) == Some(IdParts(FileIdOf(host, t, node, relative),
                                                 ClassPart(t, node, show), NamePart(t, node, show)))
  {
    var parts := IdParts(FileIdOf(host, t, node, relative), ClassPart(t, node, show), NamePart(t, node, show));
    ParseJoinedIdPartsWhenFree(parts);
    InputId(JoinIdParts(parts), node)
  }

  /** The last index below `k` holding `@`. */
  function LastAtBelow(s: string, k: nat): (r: Option<nat>)
    requires k <= |s|
    ensures r.Some? ==> r.value < k && s[r.value] == '@' && forall j :: r.value < j < k ==> s[j] != '@'
    ensures r.None? ==> forall j :: 0 <= j < k ==> s[j] != '@'
  {
    if k == 0 then None else if s[k - 1] == '@' then Some(k - 1) else LastAtBelow(s, k - 1)
  }

  /** Splits `s` at its last `@@`, provided the last `@` of `s` is the second of a pair. */
  function SplitAtLastSeparator(s: string): Option<(string, string)> {
    match LastAtBelow(s, |s|)
    case None => None
    case Some(i) => if i >= 1 && s[i - 1] == '@' then Some((s[..i - 1], s[i + 1..])) else None
  }

  /** Reads an id back into its parts, splitting from the right. */
  function ParseInputId(id: string): Option<IdParts> {
    match SplitAtLastSeparator(id)
    case None => None
    case Some((rest, name)) =>
      match SplitAtLastSeparator(rest)
      case None => None
      case Some((file, cls)) => Some(IdParts(file, cls, name))
  }

  lemma {:induction false} SplitAtLastSeparatorOf(x: string, y: string)
    requires NoAt(y)
    ensures SplitAtLastSeparator(x + "@@" + y) == Some((x, y))
  {
    var s := x + "@@" + y;
    var k := |x| + 1;
    assert s[k] == '@';
    assert forall j :: k < j < |s| ==> s[j] == y[j - k - 1];
    var r := LastAtBelow(s, |s|);
    assert r == Some(k);
    assert s[..k - 1] == x;
    assert s[k + 1..] == y;
  }

  /** Joining and parsing round-trip when the class and name parts hold no `@`
      (the file id may hold any characters). */
  lemma {:induction false} ParseJoinedIdParts(p: IdParts)
    requires NoAt(p.classPart) && NoAt(p.namePart)
    ensures ParseInputId(JoinIdParts(p)) == Some(p)
  {
    var inner := p.fileId + "@@" + p.classPart;
    assert JoinIdParts(p) == inner + "@@" + p.namePart;
    SplitAtLastSeparatorOf(inner, p.namePart);
    SplitAtLastSeparatorOf(p.fileId, p.classPart);
  }

  lemma ParseJoinedIdPartsWhenFree(p: IdParts)
    ensures NoAt(p.classPart) && NoAt(p.namePart) ==> ParseInputId(JoinIdParts(p)) == Some(p)
  {
    if NoAt(p.classPart) && NoAt(p.namePart) {
      ParseJoinedIdParts(p);
    }
  }

  /** Two inputs whose ids coincide agree on the file id, the class part and the name part. */
  lemma IdDeterminesParts(p: IdParts, q: IdParts)
    requires NoAt(p.classPart) && NoAt(p.namePart) && NoAt(q.classPart) && NoAt(q.namePart)
    requires JoinIdParts(p) == JoinIdParts(q)
    ensures p == q
  {
    ParseJoinedIdParts(p);
    ParseJoinedIdParts(q);
  }

  /** An unnamed class contributes `<anonymous>`. */
  lemma AnonymousClassPart(t: Tree, node: NodeId, show: NodeText)
    requires WellFormed(t) && node in t && !t[node].kind.SourceFile?
    requires t[ParentOf(t, node)].name.None?
    ensures ClassPart(t, node, show) == "<anonymous>"
  {
  }

  /** A name that is not an identifier contributes `<non-identifier-name>`. */
  lemma NonIdentifierNamePart(t: Tree, node: NodeId, show: NodeText)
    requires node in t
    requires t[node].name.None? || !IsIdentifier(t, t[node].name.value)
    ensures NamePart(t, node, show) == "<non-identifier-name>"
  {
  }
}
