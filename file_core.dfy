/**
 * The shared evaluation helpers of the `file.*` exams
 * (pkg/exams/file/file.go): the status constructors, `DefaultExaminate`
 * over paths and `DefaultParse`, which asks for `paths` rather than
 * `vars`. The tag table is in module FileRegistry.
 */
module FileCore {
  import opened Wrappers
  import opened Severity
  import opened Errors
  import opened Live
  import opened Reports
  import Config

  function InexistentStatus(path: string, level: int): Status
  {
    Status(level, path, "does not exist")
  }

  function ValidStatus(path: string): Status
  {
    Status(OK, path, "is valid")
  }

  function InvalidStatus(path: string, level: int, message: string): Status
  {
    Status(level, path, message)
  }

  /** The status `DefaultExaminate` records for one path. */
  function Verdict(fs: FileSystem, logLevel: int, path: string, validate: (string, Entry) -> Status): Status
  {
    if path !in fs then InexistentStatus(path, logLevel) else Clamp(validate(path, fs[path]), logLevel)
  }

  predicate AnyMissing(fs: FileSystem, paths: seq<string>)
  {
    exists k | 0 <= k < |paths| :: paths[k] !in fs
  }

  lemma AnyMissingStep(fs: FileSystem, paths: seq<string>, i: nat)
    requires i < |paths|
    ensures AnyMissing(fs, paths[..i + 1]) <==> AnyMissing(fs, paths[..i]) || paths[i] !in fs
  {
    assert paths[..i + 1] == paths[..i] + [paths[i]];
  }

  /**
   * `DefaultExaminate`: one status per path, in order; a path stat cannot
   * find is "does not exist" at the configured level, an existing one gets
   * the validator's status clamped to the configured level. For a
   * non-negative configured level the report level is the largest status
   * level (OK when there is none).
   */
  method DefaultExaminate(exam: string, logLevel: int, paths: seq<string>, fs: FileSystem,
                          validate: (string, Entry) -> Status)
    returns (r: Report)
    ensures r.examType == exam && |r.statuses| == |paths|
    ensures forall k | 0 <= k < |paths| :: r.statuses[k] == Verdict(fs, logLevel, paths[k], validate)
    ensures logLevel >= OK ==> r.lvl == MaxLevel(r.statuses) && r.lvl <= logLevel
    ensures logLevel < OK ==> r.lvl == if AnyMissing(fs, paths) then logLevel else OK
  {
    var statuses: seq<Status> := [];
    var level := OK;
    for i := 0 to |paths|
      invariant |statuses| == i
      invariant forall k | 0 <= k < i :: statuses[k] == Verdict(fs, logLevel, paths[k], validate)
      invariant forall k | 0 <= k < i :: statuses[k].lvl <= logLevel
      invariant logLevel >= OK ==> level == MaxLevel(statuses)
      invariant logLevel < OK ==> level == if AnyMissing(fs, paths[..i]) then logLevel else OK
    {
      var path := paths[i];
      var status;
      if path !in fs {
        status := InexistentStatus(path, logLevel);
        if logLevel >= OK {
          MaxLevelAtMost(statuses, logLevel);
        }
        level := logLevel;
      } else {
        status := validate(path, fs[path]);
        if status.lvl > logLevel {
          status := status.(lvl := logLevel);
        }
        if status.lvl > level {
          level := status.lvl;
        }
      }
      AnyMissingStep(fs, paths, i);
      MaxLevelAppend(statuses, status);
      statuses := statuses + [status];
    }
    assert paths[..|paths|] == paths;
    if logLevel >= OK {
      MaxLevelAtMost(statuses, logLevel);
    }
    r := Report(exam, level, statuses);
  }

  /**
   * When a validator only ever answers OK (for a good entry) or the
   * configured level, the report level is OK iff every path exists and is
   * good, and the configured level otherwise.
   */
  lemma TwoValuedLevel(fs: FileSystem, logLevel: int, paths: seq<string>, validate: (string, Entry) -> Status,
                       good: Entry -> bool, sts: seq<Status>)
    requires logLevel >= OK
    requires forall path, e :: validate(path, e).lvl == if good(e) then OK else logLevel
    requires |sts| == |paths| && forall k | 0 <= k < |paths| :: sts[k] == Verdict(fs, logLevel, paths[k], validate)
    ensures MaxLevel(sts) == if forall p | p in paths :: p in fs && good(fs[p]) then OK else logLevel
  {
    MaxLevelAtMost(sts, logLevel);
    if forall p | p in paths :: p in fs && good(fs[p]) {
      forall k | 0 <= k < |sts|
        ensures sts[k].lvl <= OK
      {
        assert paths[k] in paths;
      }
      MaxLevelAtMost(sts, OK);
    } else {
      var p :| p in paths && !(p in fs && good(fs[p]));
      var k :| 0 <= k < |paths| && paths[k] == p;
      MaxLevelSpec(sts);
      assert sts[k].lvl == logLevel;
    }
  }

  /** `DefaultParse`: the tag first, then a non-empty `paths`, then the kind's constructor. */
  function DefaultParse<T>(config: Config.Exam, ty: string, f: Config.Exam -> Result<T, ExamError>)
    : (r: Result<T, ExamError>)
    ensures config.examType != ty ==> r == Failure(WrongExamParser(config.examType, ty))
    ensures config.examType == ty && config.paths == [] ==> r == Failure(MissingField("paths", ty))
    ensures config.examType == ty && config.paths != [] ==> r == f(config)
  {
    if config.examType != ty then Failure(WrongExamParser(config.examType, ty))
    else if |config.paths| == 0 then Failure(MissingField("paths", ty))
    else f(config)
  }
}
