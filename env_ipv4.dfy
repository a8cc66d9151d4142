/**
 * `env.ipv4` (pkg/exams/env/ipv4.go): every variable is set to a dotted
 * quad. The pattern is four runs of one to three ASCII digits joined by
 * dots, with no check that a run is at most 255.
 */
module EnvIpv4 {
  import opened Wrappers
  import opened Errors
  import opened Live
  import Config
  import GoStrings
  import Strconv
  import EnvScan

  predicate IsDigitRun(g: string)
  {
    1 <= |g| <= 3 && Strconv.AllDigits(g)
  }

  /** The anchored pattern of four digit runs separated by ".". */
  predicate MatchesIpv4(s: string)
  {
    var runs := GoStrings.Split(s, '.');
    |runs| == 4 && forall k | 0 <= k < 4 :: IsDigitRun(runs[k])
  }

  /** A string matches iff it is four digit runs joined by dots. */
  lemma MatchesIpv4Iff(s: string)
    ensures MatchesIpv4(s) <==>
            exists runs: seq<string> :: |runs| == 4 && (forall k | 0 <= k < 4 :: IsDigitRun(runs[k]))
                                        && s == GoStrings.Join(runs, ".")
  {
    if MatchesIpv4(s) {
      GoStrings.JoinSplit(s, '.');
      assert s == GoStrings.Join(GoStrings.Split(s, '.'), ".");
    }
    if exists runs: seq<string> :: |runs| == 4 && (forall k | 0 <= k < 4 :: IsDigitRun(runs[k]))
                                   && s == GoStrings.Join(runs, ".") {
      var runs: seq<string> :| |runs| == 4 && (forall k | 0 <= k < 4 :: IsDigitRun(runs[k]))
                               && s == GoStrings.Join(runs, ".");
      forall k | 0 <= k < 4
        ensures '.' !in runs[k]
      {
        assert IsDigitRun(runs[k]);
      }
      GoStrings.SplitJoin(runs, '.');
    }
  }

  /** Any four digit runs joined by dots match. */
  lemma Accepts(a: string, b: string, c: string, d: string)
    requires IsDigitRun(a) && IsDigitRun(b) && IsDigitRun(c) && IsDigitRun(d)
    ensures MatchesIpv4(a + "." + b + "." + c + "." + d)
  {
    var runs := [a, b, c, d];
    assert GoStrings.Join(runs[3..], ".") == d;
    assert runs[2..][1..] == runs[3..];
    assert GoStrings.Join(runs[2..], ".") == c + "." + d;
    assert runs[1..][1..] == runs[2..];
    assert GoStrings.Join(runs[1..], ".") == b + "." + c + "." + d;
    assert GoStrings.Join(runs, ".") == a + "." + b + "." + c + "." + d;
    MatchesIpv4Iff(a + "." + b + "." + c + "." + d);
  }

  /** There is no octet range check: "999.999.999.999" is accepted. */
  lemma NoOctetRangeCheck()
    ensures MatchesIpv4("999.999.999.999")
  {
    assert IsDigitRun("999");
    Accepts("999", "999", "999", "999");
    assert "999" + "." + "999" + "." + "999" + "." + "999" == "999.999.999.999";
  }

  /** "192.168.1.1" is accepted. */
  lemma AcceptsPrivate()
    ensures MatchesIpv4("192.168.1.1")
  {
    assert IsDigitRun("192") && IsDigitRun("168") && IsDigitRun("1");
    Accepts("192", "168", "1", "1");
    assert "192" + "." + "168" + "." + "1" + "." + "1" == "192.168.1.1";
  }

  /** "10.0.0.1" is accepted. */
  lemma AcceptsTen()
    ensures MatchesIpv4("10.0.0.1")
  {
    assert IsDigitRun("10") && IsDigitRun("0") && IsDigitRun("1");
    Accepts("10", "0", "0", "1");
    assert "10" + "." + "0" + "." + "0" + "." + "1" == "10.0.0.1";
  }

  /** "0.0.0.0" is accepted. */
  lemma AcceptsZeros()
    ensures MatchesIpv4("0.0.0.0")
  {
    assert IsDigitRun("0");
    Accepts("0", "0", "0", "0");
    assert "0" + "." + "0" + "." + "0" + "." + "0" == "0.0.0.0";
  }

  predicate DotOrDigit(c: char)
  {
    c == '.' || Strconv.IsDigit(c)
  }

  /** A matching string has only dots and digits in it. */
  lemma MatchOnlyDotsAndDigits(s: string)
    requires MatchesIpv4(s)
    ensures forall i | 0 <= i < |s| :: DotOrDigit(s[i])
  {
    var runs := GoStrings.Split(s, '.');
    GoStrings.JoinSplit(s, '.');
    assert forall k, i | 0 <= k < |runs| && 0 <= i < |runs[k]| :: DotOrDigit(runs[k][i]) by {
      forall k, i | 0 <= k < |runs| && 0 <= i < |runs[k]|
        ensures DotOrDigit(runs[k][i])
      {
        assert IsDigitRun(runs[k]);
      }
    }
    GoStrings.JoinKeeps(runs, '.', DotOrDigit);
  }

  /** "invalid" is rejected. */
  lemma RejectsWord()
    ensures !MatchesIpv4("invalid")
  {
    if MatchesIpv4("invalid") {
      MatchOnlyDotsAndDigits("invalid");
    }
  }

  /** "127.o.o.1", with letters for zeros, is rejected. */
  lemma RejectsLetters()
    ensures !MatchesIpv4("127.o.o.1")
  {
    if MatchesIpv4("127.o.o.1") {
      MatchOnlyDotsAndDigits("127.o.o.1");
    }
  }

  const Heading := "environment variables not set to valid IPv4 addresses "

  datatype Ipv4 = Ipv4(vars: seq<string>)
  {
    static function Type(): string
    {
      "env.ipv4"
    }

    static function Parse(config: Config.Exam): (r: Result<Ipv4, ExamError>)
      ensures config.examType != Type() ==> r == Failure(WrongExamParserExpected(config.examType, Type()))
      ensures config.examType == Type() && config.vars == [] ==> r == Failure(Plain("vars is not set for env.ipv4"))
      ensures config.examType == Type() && config.vars != [] ==> r == Success(Ipv4(config.vars))
    {
      if config.examType != Type() then Failure(WrongExamParserExpected(config.examType, Type()))
      else if |config.vars| == 0 then Failure(Plain("vars is not set for env.ipv4"))
      else Success(Ipv4(config.vars))
    }

    /** Unset and non-matching variables on separate lines; passes iff there are none. */
    method Examinate(env: Env) returns (ok: bool, err: Option<string>)
      ensures var message := EnvScan.ListsMessage(EnvScan.Unset(env, vars), Heading,
                                                EnvScan.Invalid(env, vars, MatchesIpv4));
              ok == (message == "") && err == if ok then None else Some(message)
      ensures ok <==> forall v | v in vars :: v in env && MatchesIpv4(env[v])
    {
      var unset, invalid := EnvScan.Partition(env, vars, MatchesIpv4);
      var message := EnvScan.ListsMessage(unset, Heading, invalid);
      if message != "" {
        ok, err := false, Some(message);
      } else {
        ok, err := true, None;
      }
      EnvScan.NoneListedIff(env, vars, MatchesIpv4);
    }
  }
}
