/**
 * `env.dir` (pkg/exams/env/dir.go): each variable names a path whose
 * status as an existing directory must equal `shouldExist` (the
 * `exists` field).
 */
module EnvDir {
  import opened Wrappers
  import opened Severity
  import opened Errors
  import opened Live
  import opened Reports
  import Config
  import EnvCore

  datatype Dir = Dir(vars: seq<string>, level: int, shouldExist: bool)
  {
    static function Type(): string
    {
      "env.dir"
    }

    /** `DefaultParse`, then the variables, the severity named by `level` and `exists`. */
    static function Parse(config: Config.Exam, levelOf: string -> Level): (r: Result<Dir, ExamError>)
      ensures config.examType != Type() ==> r == Failure(WrongExamParser(config.examType, Type()))
      ensures config.examType == Type() && config.vars == [] ==> r == Failure(VarsUnset(Type()))
      ensures config.examType == Type() && config.vars != [] ==>
                r == Success(Dir(config.vars, levelOf(config.level), config.shouldExist))
    {
      var build: Config.Exam -> Result<Dir, ExamError> :=
        (c: Config.Exam) => Success(Dir(c.vars, levelOf(c.level), c.shouldExist));
      EnvCore.DefaultParse(config, Type(), build)
    }

    /** `exists` picks "an" or "a non"; `statError` is `%v` of the stat error. */
    function ErrorMessage(statError: string): string
    {
      "value should point to " + (if shouldExist then "an " else "a non ") + "existing directory. " + statError
    }

    /** Stat succeeds and finds a directory. */
    static predicate IsDirectory(fs: FileSystem, value: string)
    {
      value in fs && fs[value].kind == Directory
    }

    predicate Good(fs: FileSystem, value: string)
    {
      IsDirectory(fs, value) == shouldExist
    }

    /** The validator handed to `DefaultExaminate`. */
    function Validate(fs: FileSystem, name: string, value: string): Status
    {
      if !Good(fs, value) then EnvCore.InvalidStatus(name, level, value, ErrorMessage(StatErrorText(fs, value)))
      else EnvCore.ValidStatus(name)
    }

    /**
     * One status per variable. An unset variable fails whatever `exists`
     * says; a set one is valid iff being a directory agrees with `exists`,
     * and otherwise its status carries the level and the value. The report
     * level is OK iff every variable is valid, else the configured level.
     */
    method Examinate(env: Env, fs: FileSystem) returns (r: Report)
      ensures r.examType == Type() && |r.statuses| == |vars|
      ensures forall k | 0 <= k < |vars| && vars[k] !in env :: r.statuses[k] == EnvCore.UnsetStatus(vars[k], level)
      ensures level >= OK ==> forall k | 0 <= k < |vars| && vars[k] in env ::
                r.statuses[k] == if IsDirectory(fs, env[vars[k]]) == shouldExist then EnvCore.ValidStatus(vars[k])
                                 else EnvCore.InvalidStatus(vars[k], level, env[vars[k]],
                                                            ErrorMessage(StatErrorText(fs, env[vars[k]])))
      ensures level >= OK ==> r.lvl == if forall v | v in vars :: v in env && IsDirectory(fs, env[v]) == shouldExist
                                       then OK else level
    {
      var validate := (name, value) => Validate(fs, name, value);
      r := EnvCore.DefaultExaminate(Type(), level, vars, env, validate);
      if level >= OK {
        EnvCore.TwoValuedLevel(env, level, vars, validate, (name, value) => Good(fs, value), r.statuses);
      }
    }

    /** With `exists` false a regular file passes; with `exists` true it fails although stat succeeds. */
    lemma RegularFileIsNotDirectory(fs: FileSystem, name: string, value: string)
      requires value in fs && fs[value].kind == Regular
      ensures !shouldExist ==> Validate(fs, name, value) == EnvCore.ValidStatus(name)
      ensures shouldExist ==>
                Validate(fs, name, value) == EnvCore.InvalidStatus(name, level, value, ErrorMessage("<nil>"))
    {
    }
  }
}
