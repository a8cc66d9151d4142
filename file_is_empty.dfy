/**
 * `file.is-empty` (pkg/exams/file/is_empty.go): each path is an empty
 * directory or a file of size zero.
 */
module FileIsEmpty {
  import opened Wrappers
  import opened Severity
  import opened Errors
  import opened Live
  import opened Reports
  import Config
  import FileCore

  /** `isDirEmpty`: whether the listing has no entries, or the listing's error text. */
  function IsDirEmpty(listing: Listing): (r: Result<bool, string>)
    ensures r.Success? <==> listing.Entries?
    ensures r.Success? ==> (r.value <==> listing.count == 0)
    ensures r.Failure? ==> r.error == listing.message
  {
    match listing
    case ListError(message) => Failure(message)
    case Entries(count) => Success(count == 0)
  }

  /** What the exam accepts: a listable directory with no entries, or a non-directory of size 0. */
  predicate Empty(e: Entry)
  {
    if e.kind == Directory then e.listing == Entries(0) else e.size == 0
  }

  datatype IsEmpty = IsEmpty(paths: seq<string>, level: int)
  {
    static function Type(): string
    {
      "file.is-empty"
    }

    static function Parse(config: Config.Exam, levelOf: string -> Level): (r: Result<IsEmpty, ExamError>)
      ensures config.examType != Type() ==> r == Failure(WrongExamParser(config.examType, Type()))
      ensures config.examType == Type() && config.paths == [] ==> r == Failure(MissingField("paths", Type()))
      ensures config.examType == Type() && config.paths != [] ==>
                r == Success(IsEmpty(config.paths, levelOf(config.level)))
    {
      var build: Config.Exam -> Result<IsEmpty, ExamError> :=
        (c: Config.Exam) => Success(IsEmpty(c.paths, levelOf(c.level)));
      FileCore.DefaultParse(config, Type(), build)
    }

    /** The validator handed to `DefaultExaminate`. */
    function Validate(path: string, e: Entry): (s: Status)
      ensures s.target == path
      ensures Empty(e) ==> s == FileCore.ValidStatus(path)
      ensures !Empty(e) ==> s.lvl == level
      ensures e.kind == Directory && e.listing.ListError? ==> s.message == e.listing.message
      ensures e.kind == Directory && e.listing.Entries? && e.listing.count != 0 ==> s.message == "directory is not empty"
      ensures e.kind != Directory && e.size != 0 ==> s.message == "file is not empty"
    {
      if e.kind == Directory then
        match IsDirEmpty(e.listing)
        case Failure(message) => FileCore.InvalidStatus(path, level, message)
        case Success(empty) =>
          if !empty then FileCore.InvalidStatus(path, level, "directory is not empty")
          else FileCore.ValidStatus(path)
      else if e.size != 0 then FileCore.InvalidStatus(path, level, "file is not empty")
      else FileCore.ValidStatus(path)
    }

    /**
     * One status per path: "does not exist" for a missing path, the
     * validator's status for an existing one. The report level is OK iff
     * every path exists and is empty, else the configured level.
     */
    method Examinate(fs: FileSystem) returns (r: Report)
      ensures r.examType == Type() && |r.statuses| == |paths|
      ensures forall k | 0 <= k < |paths| && paths[k] !in fs ::
                r.statuses[k] == FileCore.InexistentStatus(paths[k], level)
      ensures level >= OK ==> forall k | 0 <= k < |paths| && paths[k] in fs ::
                r.statuses[k] == Validate(paths[k], fs[paths[k]])
      ensures level >= OK ==> r.lvl == if forall p | p in paths :: p in fs && Empty(fs[p]) then OK else level
    {
      var validate := (path, e) => Validate(path, e);
      r := FileCore.DefaultExaminate(Type(), level, paths, fs, validate);
      if level >= OK {
        FileCore.TwoValuedLevel(fs, level, paths, validate, Empty, r.statuses);
      }
    }
  }

  /** An empty configuration is refused: its tag is not "file.is-empty". */
  lemma ParseEmptyConfig(levelOf: string -> Level)
    ensures IsEmpty.Parse(Config.Exam("", "", [], [], [], "", Config.Absent, Config.Absent, "", false), levelOf).Failure?
  {
  }
}
