/**
 * `file.path` (pkg/exams/file/path.go): each path exists or does not, as
 * `shouldExist` (the `exists` field) says. It has its own loop rather than
 * `DefaultExaminate`: a missing path is fine when `exists` is false, and
 * the report level is not clamped.
 */
module FilePath {
  import opened Wrappers
  import opened Severity
  import opened Errors
  import opened Live
  import opened Reports
  import Config
  import FileCore

  datatype Path = Path(paths: seq<string>, level: int, shouldExist: bool)
  {
    static function Type(): string
    {
      "file.path"
    }

    static function Parse(config: Config.Exam, levelOf: string -> Level): (r: Result<Path, ExamError>)
      ensures config.examType != Type() ==> r == Failure(WrongExamParser(config.examType, Type()))
      ensures config.examType == Type() && config.paths == [] ==> r == Failure(MissingField("paths", Type()))
      ensures config.examType == Type() && config.paths != [] ==>
                r == Success(Path(config.paths, levelOf(config.level), config.shouldExist))
    {
      var build: Config.Exam -> Result<Path, ExamError> :=
        (c: Config.Exam) => Success(Path(c.paths, levelOf(c.level), c.shouldExist));
      FileCore.DefaultParse(config, Type(), build)
    }

    /** "path should exist" or "path should not exist". */
    function Message(): string
    {
      "path should " + (if shouldExist then "" else "not ") + "exist"
    }

    /**
     * One status per path, in order: valid iff stat succeeding agrees with
     * `exists`, otherwise the configured level and `Message()`. The report
     * level is the configured level if any path is invalid, else OK.
     */
    method Examinate(fs: FileSystem) returns (r: Report)
      ensures r.examType == Type() && |r.statuses| == |paths|
      ensures forall k | 0 <= k < |paths| ::
                r.statuses[k] == if (paths[k] in fs) == shouldExist then FileCore.ValidStatus(paths[k])
                                 else FileCore.InvalidStatus(paths[k], level, Message())
      ensures r.lvl == if forall p | p in paths :: (p in fs) == shouldExist then OK else level
    {
      var statuses: seq<Status> := [];
      var lvl := OK;
      for i := 0 to |paths|
        invariant |statuses| == i
        invariant forall k | 0 <= k < i ::
                    statuses[k] == if (paths[k] in fs) == shouldExist then FileCore.ValidStatus(paths[k])
                                   else FileCore.InvalidStatus(paths[k], level, Message())
        invariant lvl == if forall p | p in paths[..i] :: (p in fs) == shouldExist then OK else level
      {
        var path := paths[i];
        assert paths[..i + 1] == paths[..i] + [path];
        if (path in fs) == shouldExist {
          statuses := statuses + [FileCore.ValidStatus(path)];
        } else {
          statuses := statuses + [FileCore.InvalidStatus(path, level, Message())];
          lvl := level;
        }
      }
      assert paths[..|paths|] == paths;
      r := Report(Type(), lvl, statuses);
    }
  }
}
