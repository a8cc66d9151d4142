/**
 * The `file.*` tag table and its lookup (`parsers` and `GetParser` in
 * pkg/exams/file/file.go). The literal has five entries, but IsNotEmpty's
 * tag is IsEmpty's, so two entries share one key. Which of the two
 * parsers that key keeps is not fixed by the language, so it is the
 * parameter `notEmptyWins`.
 */
module FileRegistry {
  import opened Wrappers
  import FilePath
  import FileIsFile
  import FileIsDir
  import FileIsEmpty
  import FileIsNotEmpty

  datatype Kind = PathKind | IsFileKind | IsDirKind | IsEmptyKind | IsNotEmptyKind

  /** Each kind's `Type()`. */
  function TypeOf(k: Kind): string
  {
    match k
    case PathKind => FilePath.Path.Type()
    case IsFileKind => FileIsFile.IsFile.Type()
    case IsDirKind => FileIsDir.IsDir.Type()
    case IsEmptyKind => FileIsEmpty.IsEmpty.Type()
    case IsNotEmptyKind => FileIsNotEmpty.IsNotEmpty.Type()
  }

  /** The `parsers` literal; of the two entries under "file.is-empty" the later one stays. */
  function Parsers(notEmptyWins: bool): map<string, Kind>
  {
    var table := map[TypeOf(PathKind) := PathKind, TypeOf(IsFileKind) := IsFileKind, TypeOf(IsDirKind) := IsDirKind];
    if notEmptyWins then table[TypeOf(IsEmptyKind) := IsEmptyKind][TypeOf(IsNotEmptyKind) := IsNotEmptyKind]
    else table[TypeOf(IsNotEmptyKind) := IsNotEmptyKind][TypeOf(IsEmptyKind) := IsEmptyKind]
  }

  /** `GetParser`: the kind registered under `ty`, if any. */
  function GetParser(ty: string, notEmptyWins: bool): (r: Option<Kind>)
    ensures r.Some? <==> ty in Parsers(notEmptyWins)
    ensures r.Some? ==> r.value == Parsers(notEmptyWins)[ty]
  {
    if ty in Parsers(notEmptyWins) then Some(Parsers(notEmptyWins)[ty]) else None
  }

  /**
   * The table has exactly four keys; the first three lead to their own
   * kinds and "file.is-empty" to whichever of the two empty-checks won.
   */
  lemma FourKeys(notEmptyWins: bool)
    ensures Parsers(notEmptyWins).Keys == {"file.path", "file.is-file", "file.is-dir", "file.is-empty"}
    ensures |Parsers(notEmptyWins).Keys| == 4
    ensures Parsers(notEmptyWins)["file.path"] == PathKind
    ensures Parsers(notEmptyWins)["file.is-file"] == IsFileKind
    ensures Parsers(notEmptyWins)["file.is-dir"] == IsDirKind
    ensures Parsers(notEmptyWins)["file.is-empty"] == if notEmptyWins then IsNotEmptyKind else IsEmptyKind
  {
    assert "file.path"[5] != "file.is-file"[5];
    assert "file.is-file"[8] != "file.is-dir"[8];
    assert "file.is-dir"[8] != "file.is-empty"[8];
    assert "file.is-file"[8] != "file.is-empty"[8];
    assert "file.path"[5] != "file.is-dir"[5];
    assert "file.path"[5] != "file.is-empty"[5];
  }

  /** Whichever parser wins, a lookup finds a parser for exactly the same tags. */
  lemma SameKeysEitherWay(ty: string)
    ensures GetParser(ty, true).Some? <==> GetParser(ty, false).Some?
  {
    FourKeys(true);
    FourKeys(false);
  }
}
