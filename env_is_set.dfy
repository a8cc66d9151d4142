/** `env.is-set` (pkg/exams/env/is_set.go): every listed variable is set. */
module EnvIsSet {
  import opened Wrappers
  import opened Errors
  import opened Live
  import Config
  import GoStrings
  import EnvScan

  datatype IsSet = IsSet(vars: seq<string>)
  {
    static function Type(): string
    {
      "env.is-set"
    }

    /** The tag is checked before the variable list; the exam keeps `vars` as given. */
    static function Parse(config: Config.Exam): (r: Result<IsSet, ExamError>)
      ensures config.examType != Type() ==> r == Failure(WrongExamParserExpected(config.examType, Type()))
      ensures config.examType == Type() && config.vars == [] ==> r.Failure?
      ensures r.Success? <==> config.examType == Type() && config.vars != []
      ensures r.Success? ==> r.value == IsSet(config.vars)
    {
      if config.examType != Type() then Failure(WrongExamParserExpected(config.examType, Type()))
      else if |config.vars| == 0 then Failure(Plain("vars is not set for env.is-set"))
      else Success(IsSet(config.vars))
    }

    /** Passes iff no variable is unset; otherwise the error lists the unset ones in order. */
    method Examinate(env: Env) returns (ok: bool, err: Option<string>)
      ensures ok <==> forall v | v in vars :: v in env
      ensures ok ==> err == None
      ensures !ok ==> err == Some("environment variables not set " + GoStrings.FormatList(EnvScan.Unset(env, vars)))
    {
      var unset: seq<string> := [];
      for i := 0 to |vars|
        invariant unset == EnvScan.Unset(env, vars[..i])
      {
        assert vars[..i + 1][..i] == vars[..i];
        if vars[i] !in env {
          unset := unset + [vars[i]];
        }
      }
      assert vars[..|vars|] == vars;
      EnvScan.UnsetMembers(env, vars);
      if |unset| > 0 {
        assert unset[0] in unset;
        ok, err := false, Some("environment variables not set " + GoStrings.FormatList(unset));
      } else {
        ok, err := true, None;
      }
    }
  }
}
