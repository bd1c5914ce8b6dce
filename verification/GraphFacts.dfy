/** Entities, relations and gaps, named by texts. */
module GraphFacts {
  import opened Prelude

  datatype RelationKind = Imports | Exports | Defines | Contains | Calls | TestedBy | External

  datatype EntityKind = FileEntity | Function | Class | Method | Interface | Type | Variable | Module

  datatype UnknownKind =
    | ParserError
    | ParseTimeout
    | DynamicImport
    | UnresolvedImport
    | UnresolvedCall
    | UnsupportedLanguage
    | FileSkipped

  datatype Entity = Entity(id: string, path: string, kind: EntityKind, name: string, startLine: nat, endLine: nat)

  datatype Relation = Relation(source: string, target: string, kind: RelationKind, path: string, line: nat)

  datatype Unknown = Unknown(kind: UnknownKind, path: string, detail: string)

  datatype FileEntry = FileEntry(path: string, hash: string)

  const EXTERNAL_PREFIX := "external:"

  predicate IsExternal(target: string) {
    EXTERNAL_PREFIX <= target
  }

  /** Up to the last `#`; the whole id when there is none. */
  function PathOf(id: string): string {
    var cut := BeforeHash(id);
    if cut.None? then id else cut.value
  }

  function BeforeHash(id: string): Option<string> {
    if id == "" then None
    else if id[|id| - 1] == '#' then Some(id[..|id| - 1])
    else BeforeHash(id[..|id| - 1])
  }

  lemma {:induction false} BeforeLastHash(path: string, rest: string)
    requires '#' !in rest
    ensures BeforeHash(path + ['#'] + rest) == Some(path)
  {
    var id := path + ['#'] + rest;
    if rest == "" {
      assert id[..|id| - 1] == path;
    } else {
      assert id[..|id| - 1] == path + ['#'] + rest[..|rest| - 1];
      BeforeLastHash(path, rest[..|rest| - 1]);
    }
  }

  lemma {:induction false} HashCutsShort(id: string)
    ensures BeforeHash(id).Some? ==> |BeforeHash(id).value| < |id| && id[|BeforeHash(id).value|] == '#'
    ensures forall i :: 0 <= i < |id| && id[i] == '#' ==> BeforeHash(id).Some? && i <= |BeforeHash(id).value|
  {
    if id != "" && id[|id| - 1] != '#' {
      HashCutsShort(id[..|id| - 1]);
      assert forall i :: 0 <= i < |id| - 1 ==> id[i] == id[..|id| - 1][i];
    }
  }

  function KindText(kind: EntityKind): (text: string)
    ensures '#' !in text
  {
    match kind
    case FileEntity => "file"
    case Function => "function"
    case Class => "class"
    case Method => "method"
    case Interface => "interface"
    case Type => "type"
    case Variable => "variable"
    case Module => "module"
  }

  function EntityId(path: string, kind: EntityKind, name: string): string {
    path + ['#'] + (KindText(kind) + ":" + name)
  }

  /** An entity's id gives its file back exactly when its name has no `#`, whatever the path. */
  lemma PathOfEntity(path: string, kind: EntityKind, name: string)
    ensures PathOf(EntityId(path, kind, name)) == path <==> '#' !in name
    ensures PathOf(path + "#file") == path
  {
    BeforeLastHash(path, "file");
    assert path + "#file" == path + ['#'] + "file";
    var rest := KindText(kind) + ":" + name;
    if '#' !in name {
      BeforeLastHash(path, rest);
      assert EntityId(path, kind, name) == path + ['#'] + rest;
    } else {
      var i :| 0 <= i < |name| && name[i] == '#';
      var id := EntityId(path, kind, name);
      assert id[|path| + 1 + |KindText(kind)| + 1 + i] == '#';
      HashCutsShort(id);
    }
  }

  /** The id of a private method is taken for another file's. */
  lemma PrivateNameMovesPath()
    ensures PathOf(EntityId("a.ts", Method, "#b")) == "a.ts#method:"
  {
    BeforeLastHash("a.ts#method:", "b");
    assert EntityId("a.ts", Method, "#b") == "a.ts#method:" + ['#'] + "b";
  }

  /** Up to the first space. */
  function FirstWord(s: string): string {
    if s == "" || s[0] == ' ' then "" else [s[0]] + FirstWord(s[1..])
  }

  lemma {:induction false} FirstWordIs(a: string, b: string)
    requires ' ' !in a
    ensures FirstWord(a + [' '] + b) == a
  {
    if a != "" {
      assert (a + [' '] + b)[1..] == a[1..] + [' '] + b;
      FirstWordIs(a[1..], b);
      assert a == [a[0]] + a[1..];
    }
  }

  /** Two texts joined by a space can be told apart when the first of them holds no space. */
  lemma JoinedBySpace(a: string, b: string, c: string, d: string)
    requires a + [' '] + b == c + [' '] + d && ' ' !in a && ' ' !in c
    ensures a == c && b == d
  {
    FirstWordIs(a, b);
    FirstWordIs(c, d);
    assert b == (a + [' '] + b)[|a| + 1..] && d == (c + [' '] + d)[|c| + 1..];
  }
}
