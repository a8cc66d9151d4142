/**
 * The shared evaluation helpers of the `env.*` exams
 * (pkg/exams/env/env.go): the status constructors, `DefaultExaminate`
 * and `DefaultParse`. The tag table is in module EnvRegistry.
 */
module EnvCore {
  import opened Wrappers
  import opened Severity
  import opened Errors
  import opened Live
  import opened Reports
  import Config

  function ValidStatus(name: string): Status
  {
    Status(OK, name, "is valid")
  }

  function UnsetStatus(name: string, level: int): Status
  {
    Status(level, name, "is not set")
  }

  function InvalidStatus(name: string, level: int, value: string, message: string): Status
  {
    Status(level, name, "'" + value + "' is not valid: " + message)
  }

  /** The status `DefaultExaminate` records for one variable. */
  function Verdict(env: Env, logLevel: int, name: string, validate: (string, string) -> Status): Status
  {
    if name !in env then UnsetStatus(name, logLevel) else Clamp(validate(name, env[name]), logLevel)
  }

  predicate AnyUnset(env: Env, vars: seq<string>)
  {
    exists k | 0 <= k < |vars| :: vars[k] !in env
  }

  lemma AnyUnsetStep(env: Env, vars: seq<string>, i: nat)
    requires i < |vars|
    ensures AnyUnset(env, vars[..i + 1]) <==> AnyUnset(env, vars[..i]) || vars[i] !in env
  {
    assert vars[..i + 1] == vars[..i] + [vars[i]];
  }

  /**
   * `DefaultExaminate`: one status per variable, in order; an unset
   * variable is "is not set" at the configured level, a set one gets the
   * validator's status with its level clamped to the configured level.
   * For a non-negative configured level the report level is the largest
   * status level (OK when there is none).
   */
  method DefaultExaminate(exam: string, logLevel: int, vars: seq<string>, env: Env,
                          validate: (string, string) -> Status)
    returns (r: Report)
    ensures r.examType == exam && |r.statuses| == |vars|
    ensures forall k | 0 <= k < |vars| :: r.statuses[k] == Verdict(env, logLevel, vars[k], validate)
    ensures logLevel >= OK ==> r.lvl == MaxLevel(r.statuses) && r.lvl <= logLevel
    ensures logLevel < OK ==> r.lvl == if AnyUnset(env, vars) then logLevel else OK
    ensures (forall k | 0 <= k < |vars| :: vars[k] in env && validate(vars[k], env[vars[k]]).lvl <= OK)
            ==> r.lvl == OK
  {
    var statuses: seq<Status> := [];
    var level := OK;
    for i := 0 to |vars|
      invariant |statuses| == i
      invariant forall k | 0 <= k < i :: statuses[k] == Verdict(env, logLevel, vars[k], validate)
      invariant forall k | 0 <= k < i :: statuses[k].lvl <= logLevel
      invariant logLevel >= OK ==> level == MaxLevel(statuses)
      invariant logLevel < OK ==> level == if AnyUnset(env, vars[..i]) then logLevel else OK
    {
      var name := vars[i];
      var status;
      if name !in env {
        status := UnsetStatus(name, logLevel);
        if logLevel >= OK {
          MaxLevelAtMost(statuses, logLevel);
        }
        level := logLevel;
      } else {
        status := validate(name, env[name]);
        if status.lvl > logLevel {
          status := status.(lvl := logLevel);
        }
        if status.lvl > level {
          level := status.lvl;
        }
      }
      AnyUnsetStep(env, vars, i);
      MaxLevelAppend(statuses, status);
      statuses := statuses + [status];
    }
    assert vars[..|vars|] == vars;
    if logLevel >= OK {
      MaxLevelAtMost(statuses, logLevel);
    }
    r := Report(exam, level, statuses);
    if forall k | 0 <= k < |vars| :: vars[k] in env && validate(vars[k], env[vars[k]]).lvl <= OK {
      assert forall k | 0 <= k < |vars| :: statuses[k].lvl <= OK;
      if logLevel >= OK {
        MaxLevelAtMost(statuses, OK);
      }
    }
  }

  /**
   * When a validator only ever answers OK (for a good value) or the
   * configured level, the report level of `DefaultExaminate` is OK iff every
   * variable is set to a good value, and the configured level otherwise.
   */
  lemma TwoValuedLevel(env: Env, logLevel: int, vars: seq<string>, validate: (string, string) -> Status,
                       good: (string, string) -> bool, sts: seq<Status>)
    requires logLevel >= OK
    requires forall name, value :: validate(name, value).lvl == if good(name, value) then OK else logLevel
    requires |sts| == |vars| && forall k | 0 <= k < |vars| :: sts[k] == Verdict(env, logLevel, vars[k], validate)
    ensures MaxLevel(sts) == if forall v | v in vars :: v in env && good(v, env[v]) then OK else logLevel
  {
    MaxLevelAtMost(sts, logLevel);
    if forall v | v in vars :: v in env && good(v, env[v]) {
      forall k | 0 <= k < |sts|
        ensures sts[k].lvl <= OK
      {
        assert vars[k] in vars;
      }
      MaxLevelAtMost(sts, OK);
    } else {
      var v :| v in vars && !(v in env && good(v, env[v]));
      var k :| 0 <= k < |vars| && vars[k] == v;
      MaxLevelSpec(sts);
      assert sts[k].lvl == logLevel;
    }
  }

  /**
   * `DefaultParse`: the tag is checked first, then that `vars` is not
   * empty; only then is the kind's own constructor `f` used.
   */
  function DefaultParse<T>(config: Config.Exam, ty: string, f: Config.Exam -> Result<T, ExamError>)
    : (r: Result<T, ExamError>)
    ensures config.examType != ty ==> r == Failure(WrongExamParser(config.examType, ty))
    ensures config.examType == ty && config.vars == [] ==> r == Failure(VarsUnset(ty))
    ensures config.examType == ty && config.vars != [] ==> r == f(config)
  {
    if config.examType != ty then Failure(WrongExamParser(config.examType, ty))
    else if |config.vars| == 0 then Failure(VarsUnset(ty))
    else f(config)
  }
}
