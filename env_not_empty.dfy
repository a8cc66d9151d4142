/** `env.not-empty` (pkg/exams/env/not_empty.go): every variable is set to a non-blank value. */
module EnvNotEmpty {
  import opened Wrappers
  import opened Errors
  import opened Live
  import Config
  import GoStrings
  import EnvScan

  /** The value check: `strings.TrimSpace` leaves something. */
  predicate NonBlank(value: string)
  {
    GoStrings.TrimSpace(value) != ""
  }

  /** A value is blank iff it consists of white space only. */
  lemma BlankIffAllSpace(value: string)
    ensures !NonBlank(value) <==> GoStrings.AllSpace(value)
  {
    GoStrings.TrimSpaceEmptyIff(value);
  }

  /** "", " " and "\n" are blank; "x" is not. */
  lemma BlankExamples()
    ensures !NonBlank("") && !NonBlank(" ") && !NonBlank("\n")
    ensures NonBlank("x")
  {
    BlankIffAllSpace(" ");
    BlankIffAllSpace("\n");
    BlankIffAllSpace("x");
  }

  const Heading := "environment variables set to empty strings "

  datatype NotEmpty = NotEmpty(vars: seq<string>)
  {
    static function Type(): string
    {
      "env.not-empty"
    }

    static function Parse(config: Config.Exam): (r: Result<NotEmpty, ExamError>)
      ensures config.examType != Type() ==> r == Failure(WrongExamParser(config.examType, Type()))
      ensures config.examType == Type() && config.vars == [] ==> r == Failure(VarsUnset(Type()))
      ensures config.examType == Type() && config.vars != [] ==> r == Success(NotEmpty(config.vars))
    {
      if config.examType != Type() then Failure(WrongExamParser(config.examType, Type()))
      else if |config.vars| == 0 then Failure(VarsUnset(Type()))
      else Success(NotEmpty(config.vars))
    }

    /**
     * Unset variables and blank ones are listed on separate lines, unset
     * first; the exam passes iff both lists are empty.
     */
    method Examinate(env: Env) returns (ok: bool, err: Option<string>)
      ensures var message := EnvScan.ListsMessage(EnvScan.Unset(env, vars), Heading,
                                                EnvScan.Invalid(env, vars, NonBlank));
              ok == (message == "") && err == if ok then None else Some(message)
      ensures ok <==> forall v | v in vars :: v in env && !GoStrings.AllSpace(env[v])
    {
      var unset, invalid := EnvScan.Partition(env, vars, NonBlank);
      var message := EnvScan.ListsMessage(unset, Heading, invalid);
      if message != "" {
        ok, err := false, Some(message);
      } else {
        ok, err := true, None;
      }
      EnvScan.NoneListedIff(env, vars, NonBlank);
      forall v | v in vars && v in env {
        BlankIffAllSpace(env[v]);
      }
    }
  }
}
