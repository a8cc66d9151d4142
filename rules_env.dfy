/**
 * The older rule API (pkg/rules/env.go): a rule validates one environment
 * variable and answers `(bool, error)`. An unset variable is an error only
 * for `CheckEnvRule`; the other rules then answer `(false, nil)`. Go's
 * `regexp` is left abstract as in the exams: `compileError` gives the
 * compile error text of a pattern (None when it compiles) and `matches`
 * says whether a compiled pattern matches a value.
 */
module RulesEnv {
  import opened Wrappers
  import opened Live
  import Strconv
  import GoStrings

  /** The error values the rules return; the compile error is `regexp`'s own. */
  datatype RuleError =
    | CheckEnvError(envVar: string)
    | RegexCompileError(message: string)
    | ValidateEnvRegexError(envVar: string, value: string, regex: string)
    | ValidateEnvOneOfError(rule: ValidateEnvOneOfRule, value: string)
    | ValidateEnvIntegerError(envVar: string, value: string)
  {
    /** `Error()` of each error type. */
    function Message(): string
    {
      match this
      case CheckEnvError(v) => "Environment variable " + v + " is not set"
      case RegexCompileError(m) => m
      case ValidateEnvRegexError(v, value, regex) =>
        "Environment variable " + v + " has value " + value + " which doesn't match " + regex
      case ValidateEnvOneOfError(rule, value) =>
        "Environment variable " + rule.envVar + " has value " + value + " which is not one of "
        + GoStrings.FormatList(rule.options)
      case ValidateEnvIntegerError(v, value) =>
        "Environment variable " + v + " has value " + value + " which is not a number"
    }
  }

  /** The variable only has to be set. */
  datatype CheckEnvRule = CheckEnvRule(envVar: string)
  {
    function Validate(env: Env): (r: (bool, Option<RuleError>))
      ensures r.0 <==> envVar in env
      ensures r.0 ==> r.1 == None
      ensures !r.0 ==> r.1 == Some(CheckEnvError(envVar))
    {
      if envVar !in env then (false, Some(CheckEnvError(envVar))) else (true, None)
    }
  }

  /** The variable is set and matches a pattern compiled on every call. */
  datatype ValidateEnvRegexRule = ValidateEnvRegexRule(envVar: string, regex: string)
  {
    /**
     * Set-ness is looked at before the pattern is compiled, so an unset
     * variable is `(false, nil)` whatever the pattern; for a set one a
     * compile failure wins over the match.
     */
    function Validate(env: Env, compileError: string -> Option<string>, matches: (string, string) -> bool)
      : (r: (bool, Option<RuleError>))
      ensures r.0 <==> envVar in env && compileError(regex).None? && matches(regex, env[envVar])
      ensures r.0 ==> r.1 == None
      ensures envVar !in env ==> r == (false, None)
      ensures envVar in env && compileError(regex).Some? ==>
                r == (false, Some(RegexCompileError(compileError(regex).value)))
      ensures envVar in env && compileError(regex).None? && !matches(regex, env[envVar]) ==>
                r == (false, Some(ValidateEnvRegexError(envVar, env[envVar], regex)))
    {
      if envVar !in env then (false, None)
      else match compileError(regex)
        case Some(message) => (false, Some(RegexCompileError(message)))
        case None =>
          if !matches(regex, env[envVar]) then (false, Some(ValidateEnvRegexError(envVar, env[envVar], regex)))
          else (true, None)
    }
  }

  /** The variable is set to one of a list of values. */
  datatype ValidateEnvOneOfRule = ValidateEnvOneOfRule(envVar: string, options: seq<string>)
  {
    /** A linear search over the options that stops at the first equal one. */
    method Validate(env: Env) returns (ok: bool, err: Option<RuleError>)
      ensures ok <==> envVar in env && env[envVar] in options
      ensures ok ==> err == None
      ensures envVar !in env ==> !ok && err == None
      ensures envVar in env && !ok ==> err == Some(ValidateEnvOneOfError(this, env[envVar]))
    {
      if envVar !in env {
        return false, None;
      }
      var value := env[envVar];
      var i := 0;
      while i < |options|
        invariant 0 <= i <= |options|
        invariant value !in options[..i]
      {
        if value == options[i] {
          return true, None;
        }
        assert options[..i + 1] == options[..i] + [options[i]];
        i := i + 1;
      }
      assert options[..i] == options;
      return false, Some(ValidateEnvOneOfError(this, value));
    }
  }

  /** The variable is set to a decimal int64 (`strconv.Atoi`). */
  datatype ValidateEnvIntegerRule = ValidateEnvIntegerRule(envVar: string)
  {
    function Validate(env: Env): (r: (bool, Option<RuleError>))
      ensures r.0 <==> envVar in env && Strconv.Atoi(env[envVar]).Success?
      ensures r.0 ==> r.1 == None
      ensures envVar !in env ==> r == (false, None)
      ensures envVar in env && !r.0 ==> r.1 == Some(ValidateEnvIntegerError(envVar, env[envVar]))
    {
      if envVar !in env then (false, None)
      else if Strconv.Atoi(env[envVar]).Failure? then (false, Some(ValidateEnvIntegerError(envVar, env[envVar])))
      else (true, None)
    }
  }
}
