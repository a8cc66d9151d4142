/**
 * `env.int-range` (pkg/exams/env/int_range.go): every variable is set to
 * a decimal integer between `min` and `max`, both inclusive.
 */
module EnvIntRange {
  import opened Wrappers
  import opened Errors
  import opened Live
  import Config
  import Strconv
  import EnvScan

  const NotInteger := "expected an integer value"

  datatype IntRange = IntRange(vars: seq<string>, min: int, max: int)
  {
    static function Type(): string
    {
      "env.int-range"
    }

    /** Tag, vars, then `min` present, `min` an integer, `max` present, `max` an integer. */
    static function Parse(config: Config.Exam): (r: Result<IntRange, ExamError>)
      ensures config.examType != Type() ==> r == Failure(WrongExamParser(config.examType, Type()))
      ensures config.examType == Type() && config.vars == [] ==> r == Failure(VarsUnset(Type()))
      ensures config.examType == Type() && config.vars != [] ==>
                (config.min.Absent? ==> r == Failure(MissingField("min", Type()))) &&
                ((config.min.FloatValue? || config.min.OtherValue?) ==>
                   r == Failure(FieldValue("min", Type(), config.min.text, NotInteger)))
      ensures config.examType == Type() && config.vars != [] && config.min.IntValue? ==>
                (config.max.Absent? ==> r == Failure(MissingField("max", Type()))) &&
                ((config.max.FloatValue? || config.max.OtherValue?) ==>
                   r == Failure(FieldValue("max", Type(), config.max.text, NotInteger)))
      ensures r.Success? <==>
                config.examType == Type() && config.vars != [] && config.min.IntValue? && config.max.IntValue?
      ensures r.Success? ==> r.value == IntRange(config.vars, config.min.n, config.max.n)
    {
      if config.examType != Type() then Failure(WrongExamParser(config.examType, Type()))
      else if |config.vars| == 0 then Failure(VarsUnset(Type()))
      else match config.min
        case Absent => Failure(MissingField("min", Type()))
        case FloatValue(t) => Failure(FieldValue("min", Type(), t, NotInteger))
        case OtherValue(t) => Failure(FieldValue("min", Type(), t, NotInteger))
        case IntValue(lo) =>
          match config.max
          case Absent => Failure(MissingField("max", Type()))
          case FloatValue(t) => Failure(FieldValue("max", Type(), t, NotInteger))
          case OtherValue(t) => Failure(FieldValue("max", Type(), t, NotInteger))
          case IntValue(hi) => Success(IntRange(config.vars, lo, hi))
    }

    /** The message for a value Atoi refuses, followed by Atoi's own error text. */
    function ErrorMessage(atoiError: string): string
    {
      "value should be an integer. " + atoiError
    }

    function RangeMessage(): string
    {
      "value should be in the range [" + Strconv.Itoa(min) + "," + Strconv.Itoa(max) + "]"
    }

    /** The slot of one set variable: not an integer, out of range, or nothing. */
    function Check(name: string, value: string): Option<VarError>
    {
      match Strconv.Atoi(value)
      case Failure(e) => Some(InvalidEnvVar(name, value, ErrorMessage(Strconv.NumErrorText(value, e))))
      case Success(n) =>
        if n < min || n > max then Some(InvalidEnvVar(name, value, RangeMessage())) else None
    }

    /** One slot per variable; passes iff every variable is an integer in `[min, max]`. */
    method Examinate(env: Env) returns (ok: bool, errors: seq<Option<VarError>>)
      ensures ok <==> forall v | v in vars ::
                        v in env && Strconv.Atoi(env[v]).Success? && min <= Strconv.Atoi(env[v]).value <= max
      ensures ok ==> errors == []
      ensures !ok ==> |errors| == |vars|
      ensures !ok ==> forall k | 0 <= k < |vars| ::
                        errors[k] == if vars[k] !in env then Some(UnsetEnvVar(vars[k]))
                                     else Check(vars[k], env[vars[k]])
    {
      ok, errors := EnvScan.CheckEach(env, vars, Check);
    }

    /** With `min > max` no value passes. */
    lemma EmptyRange(name: string, value: string)
      requires min > max
      ensures Check(name, value).Some?
    {
    }

    /** The not-an-integer message and the out-of-range message never coincide. */
    lemma MessagesDiffer(atoiError: string)
      ensures ErrorMessage(atoiError) != RangeMessage()
    {
      assert ErrorMessage(atoiError)[16] == 'a';
      assert RangeMessage()[16] == 'i';
    }
  }
}
