/**
 * `env.file` (pkg/exams/env/file.go): each variable names a path whose
 * existence is `shouldExist` (the `exists` field).
 */
module EnvFile {
  import opened Wrappers
  import opened Severity
  import opened Errors
  import opened Live
  import opened Reports
  import Config
  import EnvCore

  datatype File = File(vars: seq<string>, level: int, shouldExist: bool)
  {
    static function Type(): string
    {
      "env.file"
    }

    /** `DefaultParse`, then the variables, the severity named by `level` and `exists`. */
    static function Parse(config: Config.Exam, levelOf: string -> Level): (r: Result<File, ExamError>)
      ensures config.examType != Type() ==> r == Failure(WrongExamParser(config.examType, Type()))
      ensures config.examType == Type() && config.vars == [] ==> r == Failure(VarsUnset(Type()))
      ensures config.examType == Type() && config.vars != [] ==>
                r == Success(File(config.vars, levelOf(config.level), config.shouldExist))
    {
      var build: Config.Exam -> Result<File, ExamError> :=
        (c: Config.Exam) => Success(File(c.vars, levelOf(c.level), c.shouldExist));
      EnvCore.DefaultParse(config, Type(), build)
    }

    /** `exists` picks "an" or "a non"; `statError` is `%v` of the stat error. */
    function ErrorMessage(statError: string): string
    {
      "value should point to " + (if shouldExist then "an " else "a non ") + "existing file. " + statError
    }

    predicate Good(fs: FileSystem, value: string)
    {
      (value in fs) == shouldExist
    }

    /** The validator handed to `DefaultExaminate`. */
    function Validate(fs: FileSystem, name: string, value: string): Status
    {
      if !Good(fs, value) then EnvCore.InvalidStatus(name, level, value, ErrorMessage(StatErrorText(fs, value)))
      else EnvCore.ValidStatus(name)
    }

    /**
     * One status per variable. An unset variable fails whatever `exists`
     * says; a set one is valid iff stat succeeding agrees with `exists`,
     * and otherwise its status carries the level and the value. The report
     * level is OK iff every variable is valid, else the configured level.
     */
    method Examinate(env: Env, fs: FileSystem) returns (r: Report)
      ensures r.examType == Type() && |r.statuses| == |vars|
      ensures forall k | 0 <= k < |vars| && vars[k] !in env :: r.statuses[k] == EnvCore.UnsetStatus(vars[k], level)
      ensures level >= OK ==> forall k | 0 <= k < |vars| && vars[k] in env ::
                r.statuses[k] == if (env[vars[k]] in fs) == shouldExist then EnvCore.ValidStatus(vars[k])
                                 else EnvCore.InvalidStatus(vars[k], level, env[vars[k]],
                                                            ErrorMessage(StatErrorText(fs, env[vars[k]])))
      ensures level >= OK ==> r.lvl == if forall v | v in vars :: v in env && (env[v] in fs) == shouldExist
                                       then OK else level
    {
      var validate := (name, value) => Validate(fs, name, value);
      r := EnvCore.DefaultExaminate(Type(), level, vars, env, validate);
      if level >= OK {
        EnvCore.TwoValuedLevel(env, level, vars, validate, (name, value) => Good(fs, value), r.statuses);
      }
    }
  }
}
