/** `file.is-dir` (pkg/exams/file/is_dir.go): each path is a directory. */
module FileIsDir {
  import opened Wrappers
  import opened Severity
  import opened Errors
  import opened Live
  import opened Reports
  import Config
  import FileCore

  datatype IsDir = IsDir(paths: seq<string>, level: int)
  {
    static function Type(): string
    {
      "file.is-dir"
    }

    static function Parse(config: Config.Exam, levelOf: string -> Level): (r: Result<IsDir, ExamError>)
      ensures config.examType != Type() ==> r == Failure(WrongExamParser(config.examType, Type()))
      ensures config.examType == Type() && config.paths == [] ==> r == Failure(MissingField("paths", Type()))
      ensures config.examType == Type() && config.paths != [] ==>
                r == Success(IsDir(config.paths, levelOf(config.level)))
    {
      var build: Config.Exam -> Result<IsDir, ExamError> :=
        (c: Config.Exam) => Success(IsDir(c.paths, levelOf(c.level)));
      FileCore.DefaultParse(config, Type(), build)
    }

    /** The validator handed to `DefaultExaminate`. */
    function Validate(path: string, e: Entry): Status
    {
      if e.kind != Directory then FileCore.InvalidStatus(path, level, "path isn't a directory")
      else FileCore.ValidStatus(path)
    }

    /**
     * One status per path: "does not exist" for a missing path, "path isn't
     * a directory" for any other existing entry, valid for a directory. The
     * report level is OK iff every path is a directory, else the configured
     * level.
     */
    method Examinate(fs: FileSystem) returns (r: Report)
      ensures r.examType == Type() && |r.statuses| == |paths|
      ensures forall k | 0 <= k < |paths| && paths[k] !in fs ::
                r.statuses[k] == FileCore.InexistentStatus(paths[k], level)
      ensures level >= OK ==> forall k | 0 <= k < |paths| && paths[k] in fs ::
                r.statuses[k] == if fs[paths[k]].kind == Directory then FileCore.ValidStatus(paths[k])
                                 else FileCore.InvalidStatus(paths[k], level, "path isn't a directory")
      ensures level >= OK ==> r.lvl == if forall p | p in paths :: p in fs && fs[p].kind == Directory
                                       then OK else level
    {
      var validate := (path, e) => Validate(path, e);
      r := FileCore.DefaultExaminate(Type(), level, paths, fs, validate);
      if level >= OK {
        FileCore.TwoValuedLevel(fs, level, paths, validate, (e: Entry) => e.kind == Directory, r.statuses);
      }
    }
  }
}
