/**
 * `file.is-not-empty` as written (pkg/exams/file/is_not_empty.go): each
 * path is a directory with entries or a file of non-zero size. Its `Type`
 * returns "file.is-empty", the tag of FileIsEmpty, so it only ever parses
 * configurations tagged "file.is-empty".
 */
module FileIsNotEmpty {
  import opened Wrappers
  import opened Severity
  import opened Errors
  import opened Live
  import opened Reports
  import Config
  import FileCore
  import FileIsEmpty

  /** What the exam accepts: a listable directory with entries, or a non-directory of non-zero size. */
  predicate NotEmpty(e: Entry)
  {
    if e.kind == Directory then e.listing.Entries? && e.listing.count != 0 else e.size != 0
  }

  datatype IsNotEmpty = IsNotEmpty(paths: seq<string>, level: int)
  {
    static function Type(): string
    {
      "file.is-empty"
    }

    static function Parse(config: Config.Exam, levelOf: string -> Level): (r: Result<IsNotEmpty, ExamError>)
      ensures config.examType != Type() ==> r == Failure(WrongExamParser(config.examType, Type()))
      ensures config.examType == Type() && config.paths == [] ==> r == Failure(MissingField("paths", Type()))
      ensures config.examType == Type() && config.paths != [] ==>
                r == Success(IsNotEmpty(config.paths, levelOf(config.level)))
    {
      var build: Config.Exam -> Result<IsNotEmpty, ExamError> :=
        (c: Config.Exam) => Success(IsNotEmpty(c.paths, levelOf(c.level)));
      FileCore.DefaultParse(config, Type(), build)
    }

    /** The validator handed to `DefaultExaminate`. */
    function Validate(path: string, e: Entry): (s: Status)
      ensures s.target == path
      ensures NotEmpty(e) ==> s == FileCore.ValidStatus(path)
      ensures !NotEmpty(e) ==> s.lvl == level
      ensures e.kind == Directory && e.listing.ListError? ==> s.message == e.listing.message
      ensures e.kind == Directory && e.listing == Entries(0) ==> s.message == "directory is empty"
      ensures e.kind != Directory && e.size == 0 ==> s.message == "file is empty"
    {
      if e.kind == Directory then
        match FileIsEmpty.IsDirEmpty(e.listing)
        case Failure(message) => FileCore.InvalidStatus(path, level, message)
        case Success(empty) =>
          if empty then FileCore.InvalidStatus(path, level, "directory is empty")
          else FileCore.ValidStatus(path)
      else if e.size == 0 then FileCore.InvalidStatus(path, level, "file is empty")
      else FileCore.ValidStatus(path)
    }

    /**
     * One status per path: "does not exist" for a missing path, the
     * validator's status for an existing one. The report level is OK iff
     * every path exists and is not empty, else the configured level.
     */
    method Examinate(fs: FileSystem) returns (r: Report)
      ensures r.examType == Type() && |r.statuses| == |paths|
      ensures forall k | 0 <= k < |paths| && paths[k] !in fs ::
                r.statuses[k] == FileCore.InexistentStatus(paths[k], level)
      ensures level >= OK ==> forall k | 0 <= k < |paths| && paths[k] in fs ::
                r.statuses[k] == Validate(paths[k], fs[paths[k]])
      ensures level >= OK ==> r.lvl == if forall p | p in paths :: p in fs && NotEmpty(fs[p]) then OK else level
    {
      var validate := (path, e) => Validate(path, e);
      r := FileCore.DefaultExaminate(Type(), level, paths, fs, validate);
      if level >= OK {
        FileCore.TwoValuedLevel(fs, level, paths, validate, NotEmpty, r.statuses);
      }
    }
  }

  /**
   * For an existing entry whose listing (when it is a directory) succeeds,
   * exactly one of the two exams accepts it; a listing error fails both.
   */
  lemma ExactlyOneAccepts(e: Entry)
    ensures e.kind != Directory || e.listing.Entries? ==> (FileIsEmpty.Empty(e) <==> !NotEmpty(e))
    ensures e.kind == Directory && e.listing.ListError? ==> !FileIsEmpty.Empty(e) && !NotEmpty(e)
  {
  }

  /** Both kinds answer to the same tag. */
  lemma SharedTag()
    ensures IsNotEmpty.Type() == FileIsEmpty.IsEmpty.Type()
  {
  }
}
