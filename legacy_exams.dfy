/**
 * The first generation of exams (pkg/exams/env.go), kept beside the
 * current `env.*` kinds. Their `Parse` errors are plain texts, their
 * `Examinate` answers `(bool, error)` with one joined message, and the
 * single-variable kinds answer `(false, nil)` for an unset variable. The
 * IPv6 pattern is the predicate `isIpv6`; `compileError` and `matches`
 * stand for Go's `regexp` as in the current kinds.
 */
module LegacyExams {
  import opened Wrappers
  import opened Live
  import Config
  import GoStrings
  import Strconv
  import EnvScan
  import EnvNotEmpty
  import EnvIpv4

  /** The two checks every legacy `Parse` starts with: the tag, then a non-empty variable list. */
  function HeaderError(config: Config.Exam, tag: string): Option<string>
  {
    if config.examType != tag then Some("invalid type " + config.examType + " for " + tag)
    else if |config.vars| == 0 then Some("vars is not set for " + tag)
    else None
  }

  /**
   * The common ending of the multi-variable `Examinate`s: the unset line,
   * then the `heading` line for the invalid ones; pass iff both are empty.
   */
  method Scan(env: Env, vars: seq<string>, valid: string -> bool, heading: string)
    returns (ok: bool, err: Option<string>)
    ensures ok <==> forall v | v in vars :: v in env && valid(env[v])
    ensures ok ==> err == None
    ensures !ok ==> err == Some(EnvScan.ListsMessage(EnvScan.Unset(env, vars), heading, EnvScan.Invalid(env, vars, valid)))
  {
    var unset, invalid := EnvScan.Partition(env, vars, valid);
    EnvScan.NoneListedIff(env, vars, valid);
    var message := EnvScan.ListsMessage(unset, heading, invalid);
    if message != "" {
      ok, err := false, Some(message);
    } else {
      ok, err := true, None;
    }
  }

  /** `env.is-set`: every variable is set. */
  datatype EnvIsSet = EnvIsSet(vars: seq<string>)
  {
    static function Type(): string
    {
      "env.is-set"
    }

    static function Parse(config: Config.Exam): (r: Result<EnvIsSet, string>)
      ensures config.examType != Type() ==> r == Failure("invalid type " + config.examType + " for " + Type())
      ensures config.examType == Type() && config.vars == [] ==> r == Failure("vars is not set for " + Type())
      ensures r.Success? <==> config.examType == Type() && config.vars != []
      ensures r.Success? ==> r.value == EnvIsSet(config.vars)
    {
      match HeaderError(config, Type())
      case Some(e) => Failure(e)
      case None => Success(EnvIsSet(config.vars))
    }

    /** Collects the unset variables; the error is that one list, with no line break. */
    method Examinate(env: Env) returns (ok: bool, err: Option<string>)
      ensures ok <==> forall v | v in vars :: v in env
      ensures ok ==> err == None
      ensures !ok ==> err == Some("environment variables not set " + GoStrings.FormatList(EnvScan.Unset(env, vars)))
    {
      var unset, _ := EnvScan.Partition(env, vars, _ => true);
      EnvScan.UnsetMembers(env, vars);
      if |unset| > 0 {
        assert unset[0] in unset;
        ok, err := false, Some("environment variables not set " + GoStrings.FormatList(unset));
      } else {
        ok, err := true, None;
      }
    }
  }

  /** `env.not-empty`: every variable is set to something other than white space. */
  datatype EnvIsSetNotEmpty = EnvIsSetNotEmpty(vars: seq<string>)
  {
    static function Type(): string
    {
      "env.not-empty"
    }

    static function Parse(config: Config.Exam): (r: Result<EnvIsSetNotEmpty, string>)
      ensures config.examType != Type() ==> r == Failure("invalid type " + config.examType + " for " + Type())
      ensures config.examType == Type() && config.vars == [] ==> r == Failure("vars is not set for " + Type())
      ensures r.Success? <==> config.examType == Type() && config.vars != []
      ensures r.Success? ==> r.value == EnvIsSetNotEmpty(config.vars)
    {
      match HeaderError(config, Type())
      case Some(e) => Failure(e)
      case None => Success(EnvIsSetNotEmpty(config.vars))
    }

    method Examinate(env: Env) returns (ok: bool, err: Option<string>)
      ensures ok <==> forall v | v in vars :: v in env && EnvNotEmpty.NonBlank(env[v])
      ensures ok ==> err == None
      ensures !ok ==> err == Some(EnvScan.ListsMessage(EnvScan.Unset(env, vars), EnvNotEmpty.Heading,
                                                       EnvScan.Invalid(env, vars, EnvNotEmpty.NonBlank)))
    {
      ok, err := Scan(env, vars, EnvNotEmpty.NonBlank, EnvNotEmpty.Heading);
    }

    /** A variable is listed at most once: unset, or set to white space only. */
    lemma ListedOnce(env: Env)
      ensures forall v | v in EnvScan.Unset(env, vars) :: v !in EnvScan.Invalid(env, vars, EnvNotEmpty.NonBlank)
      ensures forall v :: v in EnvScan.Invalid(env, vars, EnvNotEmpty.NonBlank)
                          <==> v in vars && v in env && GoStrings.AllSpace(env[v])
    {
      EnvScan.Disjoint(env, vars, EnvNotEmpty.NonBlank);
      EnvScan.InvalidMembers(env, vars, EnvNotEmpty.NonBlank);
      forall v | v in vars && v in env
        ensures !EnvNotEmpty.NonBlank(env[v]) <==> GoStrings.AllSpace(env[v])
      {
        EnvNotEmpty.BlankIffAllSpace(env[v]);
      }
    }
  }

  /** `env.regex`: every variable matches a pattern compiled once, by `Parse`. */
  datatype EnvRegex = EnvRegex(vars: seq<string>, regex: string)
  {
    static function Type(): string
    {
      "env.regex"
    }

    /** Tag, vars, an empty pattern, then a pattern that does not compile. */
    static function Parse(config: Config.Exam, compileError: string -> Option<string>): (r: Result<EnvRegex, string>)
      ensures config.examType != Type() ==> r == Failure("invalid type " + config.examType + " for " + Type())
      ensures config.examType == Type() && config.vars == [] ==> r == Failure("vars is not set for " + Type())
      ensures config.examType == Type() && config.vars != [] && config.regex == "" ==>
                r == Failure("regex is not set for env.regex")
      ensures config.examType == Type() && config.vars != [] && config.regex != "" && compileError(config.regex).Some? ==>
                r == Failure("invalid regex " + config.regex + " for env.regex, " + compileError(config.regex).value)
      ensures r.Success? <==>
                config.examType == Type() && config.vars != [] && config.regex != "" && compileError(config.regex).None?
      ensures r.Success? ==> r.value == EnvRegex(config.vars, config.regex)
    {
      match HeaderError(config, Type())
      case Some(e) => Failure(e)
      case None =>
        if config.regex == "" then Failure("regex is not set for env.regex")
        else match compileError(config.regex)
          case Some(message) => Failure("invalid regex " + config.regex + " for env.regex, " + message)
          case None => Success(EnvRegex(config.vars, config.regex))
    }

    method Examinate(env: Env, matches: (string, string) -> bool) returns (ok: bool, err: Option<string>)
      ensures ok <==> forall v | v in vars :: v in env && matches(regex, env[v])
      ensures ok ==> err == None
      ensures !ok ==> err == Some(EnvScan.ListsMessage(EnvScan.Unset(env, vars), "environment variables not matching regex ",
                                                       EnvScan.Invalid(env, vars, value => matches(regex, value))))
    {
      ok, err := Scan(env, vars, value => matches(regex, value), "environment variables not matching regex ");
    }
  }

  /** `env.options`: every variable is set to one of the options, kept as a set (a map to `true`). */
  datatype EnvOption = EnvOption(vars: seq<string>, options: map<string, bool>)
  {
    static function Type(): string
    {
      "env.options"
    }

    /** Tag, vars, an empty option list; then the options are inserted one by one. */
    static method Parse(config: Config.Exam) returns (r: Result<EnvOption, string>)
      ensures config.examType != Type() ==> r == Failure("invalid type " + config.examType + " for " + Type())
      ensures config.examType == Type() && config.vars == [] ==> r == Failure("vars is not set for " + Type())
      ensures config.examType == Type() && config.vars != [] && config.options == [] ==>
                r == Failure("options is not set for env.options")
      ensures r.Success? <==> config.examType == Type() && config.vars != [] && config.options != []
      ensures r.Success? ==> r.value.vars == config.vars
      ensures r.Success? ==> forall o :: o in r.value.options <==> o in config.options
      ensures r.Success? ==> forall o | o in r.value.options :: r.value.options[o]
    {
      var header := HeaderError(config, Type());
      if header.Some? {
        return Failure(header.value);
      }
      if |config.options| == 0 {
        return Failure("options is not set for env.options");
      }
      var options: map<string, bool> := map[];
      var i := 0;
      while i < |config.options|
        invariant 0 <= i <= |config.options|
        invariant forall o :: o in options <==> o in config.options[..i]
        invariant forall o | o in options :: options[o]
      {
        assert config.options[..i + 1] == config.options[..i] + [config.options[i]];
        options := options[config.options[i] := true];
        i := i + 1;
      }
      assert config.options[..i] == config.options;
      r := Success(EnvOption(config.vars, options));
    }

    method Examinate(env: Env) returns (ok: bool, err: Option<string>)
      ensures ok <==> forall v | v in vars :: v in env && env[v] in options
      ensures ok ==> err == None
      ensures !ok ==> err == Some(EnvScan.ListsMessage(EnvScan.Unset(env, vars), "environment variables not matching options ",
                                                       EnvScan.Invalid(env, vars, value => value in options)))
    {
      ok, err := Scan(env, vars, value => value in options, "environment variables not matching options ");
    }
  }

  /** `env.int`: every variable is set to a decimal int64. */
  datatype EnvInteger = EnvInteger(vars: seq<string>)
  {
    static function Type(): string
    {
      "env.int"
    }

    static function Parse(config: Config.Exam): (r: Result<EnvInteger, string>)
      ensures config.examType != Type() ==> r == Failure("invalid type " + config.examType + " for " + Type())
      ensures config.examType == Type() && config.vars == [] ==> r == Failure("vars is not set for " + Type())
      ensures r.Success? <==> config.examType == Type() && config.vars != []
      ensures r.Success? ==> r.value == EnvInteger(config.vars)
    {
      match HeaderError(config, Type())
      case Some(e) => Failure(e)
      case None => Success(EnvInteger(config.vars))
    }

    method Examinate(env: Env) returns (ok: bool, err: Option<string>)
      ensures ok <==> forall v | v in vars :: v in env && Strconv.Atoi(env[v]).Success?
      ensures ok ==> err == None
      ensures !ok ==> err == Some(EnvScan.ListsMessage(EnvScan.Unset(env, vars), "environment variables not set to integer numbers ",
                                                       EnvScan.Invalid(env, vars, value => Strconv.Atoi(value).Success?)))
    {
      ok, err := Scan(env, vars, value => Strconv.Atoi(value).Success?, "environment variables not set to integer numbers ");
    }
  }

  /** The start every single-variable message shares. */
  function About(envVar: string, value: string): string
  {
    "environment variable " + envVar + " has value " + value + " which is not "
  }

  /** `env.int-range` of one variable, bounds included; it has no `Parse`. */
  datatype EnvIntegerRange = EnvIntegerRange(envVar: string, min: int, max: int)
  {
    function NotNumber(value: string): string
    {
      About(envVar, value) + "a number"
    }

    function OutOfRange(value: string): string
    {
      About(envVar, value) + "in the int range [" + Strconv.Itoa(min) + "," + Strconv.Itoa(max) + "]"
    }

    /** Unset is `(false, nil)`; a non-number and an out-of-range number are errors. */
    function Examinate(env: Env): (r: (bool, Option<string>))
      ensures envVar !in env ==> r == (false, None)
      ensures r.0 <==> envVar in env && Strconv.Atoi(env[envVar]).Success?
                       && min <= Strconv.Atoi(env[envVar]).value <= max
      ensures r.0 ==> r.1 == None
      ensures envVar in env && Strconv.Atoi(env[envVar]).Failure? ==> r.1 == Some(NotNumber(env[envVar]))
      ensures envVar in env && Strconv.Atoi(env[envVar]).Success? && !r.0 ==> r.1 == Some(OutOfRange(env[envVar]))
    {
      if envVar !in env then (false, None)
      else
        var value := env[envVar];
        match Strconv.Atoi(value)
        case Failure(_) => (false, Some(NotNumber(value)))
        case Success(n) =>
          if n < min || n > max then (false, Some(OutOfRange(value))) else (true, None)
    }

    /** The two error texts can be told apart. */
    lemma MessagesDiffer(value: string)
      ensures NotNumber(value) != OutOfRange(value)
    {
      var p := About(envVar, value);
      assert NotNumber(value)[|p|] == 'a';
      assert OutOfRange(value)[|p|] == 'i';
    }

    /** With `min > max` nothing passes. */
    lemma EmptyRange(env: Env)
      requires min > max
      ensures !Examinate(env).0
    {
    }
  }

  /** Accepted and rejected values of the exam tests, with bounds [1,4] and [1,3]. */
  lemma {:induction false} IntegerRangeExamples()
    ensures EnvIntegerRange("N", 1, 4).Examinate(map["N" := "2"]) == (true, None)
    ensures !EnvIntegerRange("N", 1, 3).Examinate(map["N" := "4"]).0
    ensures !EnvIntegerRange("N", 1, 3).Examinate(map["N" := "-1"]).0
    ensures !EnvIntegerRange("N", 1, 0).Examinate(map["N" := "a"]).0
  {
    assert Strconv.Itoa(2) == "2";
    Strconv.AtoiItoa(2);
    assert Strconv.Itoa(4) == "4";
    Strconv.AtoiItoa(4);
    assert Strconv.Itoa(-1) == "-1";
    Strconv.AtoiItoa(-1);
  }

  /** `env.file` of one variable: the value names an existing path of any kind. */
  datatype EnvFile = EnvFile(envVar: string)
  {
    function Examinate(env: Env, fs: FileSystem): (r: (bool, Option<string>))
      ensures envVar !in env ==> r == (false, None)
      ensures r.0 <==> envVar in env && env[envVar] in fs
      ensures r.0 ==> r.1 == None
      ensures envVar in env && !r.0 ==>
                r.1 == Some(About(envVar, env[envVar]) + "a file, " + StatError(env[envVar]))
    {
      if envVar !in env then (false, None)
      else if env[envVar] !in fs then (false, Some(About(envVar, env[envVar]) + "a file, " + StatError(env[envVar])))
      else (true, None)
    }
  }

  /** Only `os.Stat` is asked, so a directory passes `env.file`. */
  lemma FileAcceptsDirectory(env: Env, fs: FileSystem, name: string)
    requires name in env && env[name] in fs && fs[env[name]].kind == Directory
    ensures EnvFile(name).Examinate(env, fs) == (true, None)
  {
  }

  /** `env.dir` of one variable: the value names an existing directory. */
  datatype EnvDir = EnvDir(envVar: string)
  {
    function Examinate(env: Env, fs: FileSystem): (r: (bool, Option<string>))
      ensures envVar !in env ==> r == (false, None)
      ensures r.0 <==> envVar in env && env[envVar] in fs && fs[env[envVar]].kind == Directory
      ensures r.0 ==> r.1 == None
      ensures envVar in env && env[envVar] !in fs ==>
                r.1 == Some(About(envVar, env[envVar]) + "a directory, " + StatError(env[envVar]))
      ensures envVar in env && env[envVar] in fs && !r.0 ==> r.1 == Some(About(envVar, env[envVar]) + "a directory")
    {
      if envVar !in env then (false, None)
      else
        var value := env[envVar];
        if value !in fs then (false, Some(About(envVar, value) + "a directory, " + StatError(value)))
        else if fs[value].kind != Directory then (false, Some(About(envVar, value) + "a directory"))
        else (true, None)
    }

    /** A missing path and a path that is not a directory give different errors. */
    lemma MessagesDiffer(env: Env, fs: FileSystem, fs': FileSystem)
      requires envVar in env && env[envVar] !in fs
      requires env[envVar] in fs' && fs'[env[envVar]].kind != Directory
      ensures Examinate(env, fs).1 != Examinate(env, fs').1
    {
      var short := About(envVar, env[envVar]) + "a directory";
      assert |Examinate(env, fs).1.value| > |short|;
    }
  }

  /** `env.ipv4` of one variable: four dot-separated runs of one to three digits. */
  datatype EnvIpv4Addr = EnvIpv4Addr(envVar: string)
  {
    function Examinate(env: Env): (r: (bool, Option<string>))
      ensures envVar !in env ==> r == (false, None)
      ensures r.0 <==> envVar in env && EnvIpv4.MatchesIpv4(env[envVar])
      ensures r.0 ==> r.1 == None
      ensures envVar in env && !r.0 ==> r.1 == Some(About(envVar, env[envVar]) + "an IPv4 address")
    {
      if envVar !in env then (false, None)
      else if !EnvIpv4.MatchesIpv4(env[envVar]) then (false, Some(About(envVar, env[envVar]) + "an IPv4 address"))
      else (true, None)
    }
  }

  /** `env.ipv6` of one variable; the pattern itself is `isIpv6`. */
  datatype EnvIpv6Addr = EnvIpv6Addr(envVar: string)
  {
    function Examinate(env: Env, isIpv6: string -> bool): (r: (bool, Option<string>))
      ensures envVar !in env ==> r == (false, None)
      ensures r.0 <==> envVar in env && isIpv6(env[envVar])
      ensures r.0 ==> r.1 == None
      ensures envVar in env && !r.0 ==> r.1 == Some(About(envVar, env[envVar]) + "an IPv6 address")
    {
      if envVar !in env then (false, None)
      else if !isIpv6(env[envVar]) then (false, Some(About(envVar, env[envVar]) + "an IPv6 address"))
      else (true, None)
    }
  }

  /** `os.Getenv`: the value, or "" for an unset variable. */
  function Getenv(env: Env, name: string): string
  {
    if name in env then env[name] else ""
  }

  /**
   * `env.ip` of one variable: the IPv4 exam, then the IPv6 one; their
   * errors are dropped and a failure is always an error, even when unset.
   */
  datatype EnvIpAddr = EnvIpAddr(envVar: string)
  {
    function Examinate(env: Env, isIpv6: string -> bool): (r: (bool, Option<string>))
      ensures r.0 <==> EnvIpv4Addr(envVar).Examinate(env).0 || EnvIpv6Addr(envVar).Examinate(env, isIpv6).0
      ensures r.0 ==> r.1 == None
      ensures !r.0 ==> r.1 == Some(About(envVar, Getenv(env, envVar)) + "an IP address")
    {
      if EnvIpv4Addr(envVar).Examinate(env).0 then (true, None)
      else if EnvIpv6Addr(envVar).Examinate(env, isIpv6).0 then (true, None)
      else (false, Some(About(envVar, Getenv(env, envVar)) + "an IP address"))
    }

    /** Unlike the two exams it tries, an unset variable is an error naming the empty value. */
    lemma UnsetIsError(env: Env, isIpv6: string -> bool)
      requires envVar !in env
      ensures Examinate(env, isIpv6) == (false, Some(About(envVar, "") + "an IP address"))
      ensures EnvIpv4Addr(envVar).Examinate(env) == (false, None)
      ensures EnvIpv6Addr(envVar).Examinate(env, isIpv6) == (false, None)
    {
    }
  }

  /** The addresses of the exam tests: "0.0.0.0" passes as IPv4, "127.o.o.1" fails both ways. */
  lemma IpExamples(isIpv6: string -> bool)
    requires !isIpv6("127.o.o.1")
    ensures EnvIpAddr("A").Examinate(map["A" := "0.0.0.0"], isIpv6) == (true, None)
    ensures !EnvIpAddr("A").Examinate(map["A" := "127.o.o.1"], isIpv6).0
  {
    EnvIpv4.AcceptsZeros();
    EnvIpv4.RejectsLetters();
  }
}
