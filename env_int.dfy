/** `env.int` (pkg/exams/env/int.go): every variable is set to a decimal integer. */
module EnvInt {
  import opened Wrappers
  import opened Errors
  import opened Live
  import Config
  import Strconv
  import EnvScan

  /** The value check: `strconv.Atoi` succeeds. */
  predicate IsInteger(value: string)
  {
    Strconv.Atoi(value).Success?
  }

  /** "1", "-2" and "123" are integers; ".1", "2O", "3f" and "invalid" are not. */
  lemma IntegerExamples()
    ensures IsInteger("1") && IsInteger("-2") && IsInteger("123")
    ensures !IsInteger(".1") && !IsInteger("2O") && !IsInteger("3f") && !IsInteger("invalid")
  {
    Strconv.AtoiAccepts();
    Strconv.AtoiRejects();
  }

  const Heading := "environment variables not set to integer numbers "

  datatype Int = Int(vars: seq<string>)
  {
    static function Type(): string
    {
      "env.int"
    }

    static function Parse(config: Config.Exam): (r: Result<Int, ExamError>)
      ensures config.examType != Type() ==> r == Failure(WrongExamParser(config.examType, Type()))
      ensures config.examType == Type() && config.vars == [] ==> r == Failure(Plain("vars is not set for env.int"))
      ensures config.examType == Type() && config.vars != [] ==> r == Success(Int(config.vars))
    {
      if config.examType != Type() then Failure(WrongExamParser(config.examType, Type()))
      else if |config.vars| == 0 then Failure(Plain("vars is not set for env.int"))
      else Success(Int(config.vars))
    }

    /** Unset and non-integer variables on separate lines; passes iff there are none. */
    method Examinate(env: Env) returns (ok: bool, err: Option<string>)
      ensures var message := EnvScan.ListsMessage(EnvScan.Unset(env, vars), Heading,
                                                EnvScan.Invalid(env, vars, IsInteger));
              ok == (message == "") && err == if ok then None else Some(message)
      ensures ok <==> forall v | v in vars :: v in env && Strconv.Atoi(env[v]).Success?
    {
      var unset, invalid := EnvScan.Partition(env, vars, IsInteger);
      var message := EnvScan.ListsMessage(unset, Heading, invalid);
      if message != "" {
        ok, err := false, Some(message);
      } else {
        ok, err := true, None;
      }
      EnvScan.NoneListedIff(env, vars, IsInteger);
    }
  }
}
