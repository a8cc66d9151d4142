/**
 * `env.options` (pkg/exams/env/option.go): every variable is set to one of
 * a fixed list of values. The list becomes a set (a map to `true`), so
 * repetitions and order do not matter. `render` is `fmt`'s `%v` of that map.
 */
module EnvOption {
  import Wrappers
  import opened Errors
  import opened Live
  import Config
  import EnvScan

  datatype Option = Option(vars: seq<string>, options: map<string, bool>)
  {
    static function Type(): string
    {
      "env.options"
    }

    /** Tag, then vars, then an empty option list; the options are inserted one by one. */
    static method Parse(config: Config.Exam) returns (r: Wrappers.Result<Option, ExamError>)
      ensures config.examType != Type() ==> r == Wrappers.Failure(WrongExamParser(config.examType, Type()))
      ensures config.examType == Type() && config.vars == [] ==> r == Wrappers.Failure(VarsUnset(Type()))
      ensures config.examType == Type() && config.vars != [] && config.options == [] ==>
                r == Wrappers.Failure(MissingField("options", Type()))
      ensures r.Success? <==> config.examType == Type() && config.vars != [] && config.options != []
      ensures r.Success? ==> r.value.vars == config.vars
      ensures r.Success? ==> forall o :: o in r.value.options <==> o in config.options
      ensures r.Success? ==> forall o | o in r.value.options :: r.value.options[o]
    {
      if config.examType != Type() {
        return Wrappers.Failure(WrongExamParser(config.examType, Type()));
      }
      if |config.vars| == 0 {
        return Wrappers.Failure(VarsUnset(Type()));
      }
      if |config.options| == 0 {
        return Wrappers.Failure(MissingField("options", Type()));
      }
      var options: map<string, bool> := map[];
      for i := 0 to |config.options|
        invariant forall o :: o in options <==> o in config.options[..i]
        invariant forall o | o in options :: options[o]
      {
        assert config.options[..i + 1] == config.options[..i] + [config.options[i]];
        options := options[config.options[i] := true];
      }
      assert config.options[..|config.options|] == config.options;
      r := Wrappers.Success(Option(config.vars, options));
    }

    function ErrorMessage(render: map<string, bool> -> string): string
    {
      "value should be one of " + render(options)
    }

    /** The slot of one set variable: an error iff its value is not one of the options. */
    function Check(render: map<string, bool> -> string, name: string, value: string): Wrappers.Option<VarError>
    {
      if value !in options then Wrappers.Some(InvalidEnvVar(name, value, ErrorMessage(render))) else Wrappers.None
    }

    /** One slot per variable; passes iff every variable is set to one of the options. */
    method Examinate(env: Env, render: map<string, bool> -> string)
      returns (ok: bool, errors: seq<Wrappers.Option<VarError>>)
      ensures ok <==> forall v | v in vars :: v in env && env[v] in options
      ensures ok ==> errors == []
      ensures !ok ==> |errors| == |vars|
      ensures !ok ==> forall k | 0 <= k < |vars| ::
                        errors[k] == if vars[k] !in env then Wrappers.Some(UnsetEnvVar(vars[k]))
                                     else Check(render, vars[k], env[vars[k]])
    {
      ok, errors := EnvScan.CheckEach(env, vars, (name, value) => Check(render, name, value));
    }
  }
}
