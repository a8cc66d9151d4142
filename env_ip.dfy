/**
 * `env.ip` (pkg/exams/env/ip.go): every variable holds an IPv4 or an IPv6
 * address. Each variable is examined alone by the `env.ipv4` exam and,
 * failing that, by the `env.ipv6` one; the IPv6 pattern is the predicate
 * `isIpv6`. An unset variable fails both and lands in the invalid list.
 */
module EnvIp {
  import opened Wrappers
  import opened Errors
  import opened Live
  import Config
  import GoStrings
  import EnvScan
  import EnvIpv4

  /** What the IPv6 exam accepts for one variable: it is set and its value is an IPv6 address. */
  predicate Ipv6Accepts(env: Env, isIpv6: string -> bool, name: string)
  {
    name in env && isIpv6(env[name])
  }

  predicate Accepted(env: Env, isIpv6: string -> bool, name: string)
  {
    (name in env && EnvIpv4.MatchesIpv4(env[name])) || Ipv6Accepts(env, isIpv6, name)
  }

  /** The variables neither exam accepts, in order. */
  function Rejected(env: Env, vars: seq<string>, isIpv6: string -> bool): seq<string>
  {
    if vars == [] then []
    else
      var last := vars[|vars| - 1];
      Rejected(env, vars[..|vars| - 1], isIpv6) + (if Accepted(env, isIpv6, last) then [] else [last])
  }

  /** The rejected list holds exactly the variables neither exam accepts. */
  lemma {:induction false} RejectedMembers(env: Env, vars: seq<string>, isIpv6: string -> bool)
    ensures forall v :: v in Rejected(env, vars, isIpv6) <==> v in vars && !Accepted(env, isIpv6, v)
  {
    if vars != [] {
      var front := vars[..|vars| - 1];
      RejectedMembers(env, front, isIpv6);
      assert vars == front + [vars[|vars| - 1]];
    }
  }

  const Heading := "environment variables not set to valid IP addresses "

  datatype Ip = Ip(vars: seq<string>)
  {
    static function Type(): string
    {
      "env.ip"
    }

    static function Parse(config: Config.Exam): (r: Result<Ip, ExamError>)
      ensures config.examType != Type() ==> r == Failure(WrongExamParser(config.examType, Type()))
      ensures config.examType == Type() && config.vars == [] ==> r == Failure(Plain("vars is not set for env.ip"))
      ensures config.examType == Type() && config.vars != [] ==> r == Success(Ip(config.vars))
    {
      if config.examType != Type() then Failure(WrongExamParser(config.examType, Type()))
      else if |config.vars| == 0 then Failure(Plain("vars is not set for env.ip"))
      else Success(Ip(config.vars))
    }

    /**
     * Only the invalid line can appear (the unset list stays empty); the
     * exam passes iff every variable is set to an IPv4 or IPv6 address.
     */
    method Examinate(env: Env, isIpv6: string -> bool) returns (ok: bool, err: Option<string>)
      ensures var message := EnvScan.ListsMessage([], Heading, Rejected(env, vars, isIpv6));
              ok == (message == "") && err == if ok then None else Some(message)
      ensures ok <==> forall v | v in vars :: v in env && (EnvIpv4.MatchesIpv4(env[v]) || isIpv6(env[v]))
    {
      var unset: seq<string> := [];
      var invalid: seq<string> := [];
      for i := 0 to |vars|
        invariant invalid == Rejected(env, vars[..i], isIpv6)
      {
        var v := vars[i];
        assert vars[..i + 1][..i] == vars[..i];
        var ok4, _ := EnvIpv4.Ipv4([v]).Examinate(env);
        if !ok4 {
          var ok6 := Ipv6Accepts(env, isIpv6, v);
          if !ok6 {
            invalid := invalid + [v];
          }
        }
      }
      assert vars[..|vars|] == vars;
      RejectedMembers(env, vars, isIpv6);
      var message := EnvScan.ListsMessage(unset, Heading, invalid);
      if message != "" {
        assert invalid[0] in invalid;
        ok, err := false, Some(message);
      } else {
        ok, err := true, None;
      }
    }
  }

  /** An unset variable is reported as invalid, not as unset. */
  lemma UnsetIsInvalid(env: Env, vars: seq<string>, isIpv6: string -> bool, name: string)
    requires name in vars && name !in env
    ensures name in Rejected(env, vars, isIpv6)
  {
    RejectedMembers(env, vars, isIpv6);
  }
}
