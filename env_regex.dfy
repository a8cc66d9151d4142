/**
 * `env.regex` (pkg/exams/env/regex.go): every variable matches a regular
 * expression. Go's `regexp` is left abstract: `compileError` gives the
 * compile error text of a pattern (None when it compiles) and `matches`
 * says whether a compiled pattern matches a value.
 */
module EnvRegex {
  import opened Wrappers
  import opened Errors
  import opened Live
  import Config
  import EnvScan

  datatype Regex = Regex(vars: seq<string>, pattern: string)
  {
    static function Type(): string
    {
      "env.regex"
    }

    /** Tag, then vars, then a missing pattern, then a pattern that does not compile. */
    static function Parse(config: Config.Exam, compileError: string -> Option<string>): (r: Result<Regex, ExamError>)
      ensures config.examType != Type() ==> r == Failure(WrongExamParser(config.examType, Type()))
      ensures config.examType == Type() && config.vars == [] ==> r == Failure(VarsUnset(Type()))
      ensures config.examType == Type() && config.vars != [] && config.regex == "" ==>
                r == Failure(MissingField("regex", Type()))
      ensures config.examType == Type() && config.vars != [] && config.regex != "" && compileError(config.regex).Some? ==>
                r == Failure(FieldValue("regex", Type(), config.regex, compileError(config.regex).value))
      ensures r.Success? <==>
                config.examType == Type() && config.vars != [] && config.regex != "" && compileError(config.regex).None?
      ensures r.Success? ==> r.value == Regex(config.vars, config.regex)
    {
      if config.examType != Type() then Failure(WrongExamParser(config.examType, Type()))
      else if |config.vars| == 0 then Failure(VarsUnset(Type()))
      else if config.regex == "" then Failure(MissingField("regex", Type()))
      else match compileError(config.regex)
        case Some(message) => Failure(FieldValue("regex", Type(), config.regex, message))
        case None => Success(Regex(config.vars, config.regex))
    }

    function ErrorMessage(): string
    {
      "value should match regex " + pattern
    }

    /** The slot of one set variable: an error iff its value does not match. */
    function Check(matches: (string, string) -> bool, name: string, value: string): Option<VarError>
    {
      if !matches(pattern, value) then Some(InvalidEnvVar(name, value, ErrorMessage())) else None
    }

    /** One slot per variable; passes iff every variable is set and matches. */
    method Examinate(env: Env, matches: (string, string) -> bool) returns (ok: bool, errors: seq<Option<VarError>>)
      ensures ok <==> forall v | v in vars :: v in env && matches(pattern, env[v])
      ensures ok ==> errors == []
      ensures !ok ==> |errors| == |vars|
      ensures !ok ==> forall k | 0 <= k < |vars| ::
                        errors[k] == if vars[k] !in env then Some(UnsetEnvVar(vars[k]))
                                     else Check(matches, vars[k], env[vars[k]])
    {
      ok, errors := EnvScan.CheckEach(env, vars, (name, value) => Check(matches, name, value));
    }
  }

  /** A pattern that does not compile is refused, e.g. "[", and a compiling one such as ".*" is kept. */
  lemma ParseCompiles(config: Config.Exam, compileError: string -> Option<string>)
    requires config.examType == Regex.Type() && config.vars != []
    ensures config.regex == "[" && compileError("[").Some? ==> Regex.Parse(config, compileError).Failure?
    ensures config.regex == ".*" && compileError(".*").None? ==>
              Regex.Parse(config, compileError) == Success(Regex(config.vars, ".*"))
  {
  }
}
