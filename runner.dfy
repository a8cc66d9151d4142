/**
 * The runner (pkg/runner/run.go): examine the base exams, drop the
 * protocols that were not asked for from the configuration, examine the
 * remaining protocols and combine the levels and reports.
 *
 * Building an exam from its configuration (`parse`) and examining it
 * (`examinate`, which reads the environment and the filesystem) are
 * parameters; the tag lookup is the concrete `GetExamParser`.
 */
module Runner {
  import opened Wrappers
  import opened Severity
  import opened Errors
  import opened Reports
  import Config
  import ExamDispatch

  /** One exam: lookup, parse, examine; the first two can fail. */
  function Step<X>(ex: Config.Exam, notEmptyWins: bool,
                   parse: (ExamDispatch.Parser, Config.Exam) -> Result<X, ExamError>,
                   examinate: X -> Report): Result<Report, ExamError>
  {
    match ExamDispatch.GetExamParser(ex.examType, notEmptyWins)
    case None => Failure(UnknownExam(ex.examType))
    case Some(p) =>
      match parse(p, ex)
      case Failure(e) => Failure(e)
      case Success(x) => Success(examinate(x))
  }

  /**
   * Steps taken one after another over `xs`: the first failing step's
   * error, or one report per element.
   */
  function Chain<T>(xs: seq<T>, step: T -> Result<Report, ExamError>): (r: Result<seq<Report>, ExamError>)
    ensures r.Success? ==> |r.value| == |xs|
  {
    if xs == [] then Success([])
    else
      match Chain(xs[..|xs| - 1], step)
      case Failure(e) => Failure(e)
      case Success(rs) =>
        match step(xs[|xs| - 1])
        case Failure(e) => Failure(e)
        case Success(r) => Success(rs + [r])
  }

  /** A successful chain holds, at each position, the report of that element's step. */
  lemma {:induction false} ChainAt<T>(xs: seq<T>, step: T -> Result<Report, ExamError>)
    requires Chain(xs, step).Success?
    ensures forall k | 0 <= k < |xs| :: step(xs[k]) == Success(Chain(xs, step).value[k])
  {
    if xs != [] {
      var front := xs[..|xs| - 1];
      ChainAt(front, step);
      assert forall k | 0 <= k < |front| :: front[k] == xs[k];
    }
  }

  /** Once a prefix fails, the whole chain fails with the same error. */
  lemma {:induction false} ChainFailureSticks<T>(xs: seq<T>, i: nat, step: T -> Result<Report, ExamError>)
    requires i <= |xs| && Chain(xs[..i], step).Failure?
    ensures Chain(xs, step) == Chain(xs[..i], step)
    decreases |xs| - i
  {
    if i < |xs| {
      var front := xs[..|xs| - 1];
      assert front[..i] == xs[..i];
      ChainFailureSticks(front, i, step);
    } else {
      assert xs[..i] == xs;
    }
  }

  /** A chain whose steps all succeed succeeds. */
  lemma {:induction false} ChainSucceeds<T>(xs: seq<T>, step: T -> Result<Report, ExamError>)
    requires forall k | 0 <= k < |xs| :: step(xs[k]).Success?
    ensures Chain(xs, step).Success?
  {
    if xs != [] {
      var front := xs[..|xs| - 1];
      assert forall k | 0 <= k < |front| :: front[k] == xs[k];
      ChainSucceeds(front, step);
    }
  }

  /** Extending a successful prefix by one element. */
  lemma ChainStep<T>(xs: seq<T>, i: nat, step: T -> Result<Report, ExamError>)
    requires i < |xs| && Chain(xs[..i], step).Success?
    ensures Chain(xs[..i + 1], step) ==
              match step(xs[i])
              case Failure(e) => Failure(e)
              case Success(r) => Success(Chain(xs[..i], step).value + [r])
  {
    assert xs[..i + 1][..i] == xs[..i];
  }

  /** The chain fails with the error of its first failing step. */
  lemma ChainFirstError<T>(xs: seq<T>, i: nat, step: T -> Result<Report, ExamError>)
    requires i < |xs|
    requires forall k | 0 <= k < i :: step(xs[k]).Success?
    requires step(xs[i]).Failure?
    ensures Chain(xs, step) == Failure(step(xs[i]).error)
  {
    var pre := xs[..i];
    assert forall k | 0 <= k < |pre| :: pre[k] == xs[k];
    ChainSucceeds(pre, step);
    ChainStep(xs, i, step);
    ChainFailureSticks(xs, i + 1, step);
  }

  /** `Step` with its configuration fixed, as a function of the exam. */
  function StepOf<X>(notEmptyWins: bool,
                     parse: (ExamDispatch.Parser, Config.Exam) -> Result<X, ExamError>,
                     examinate: X -> Report): Config.Exam -> Result<Report, ExamError>
  {
    ex => Step(ex, notEmptyWins, parse, examinate)
  }

  /** The exams in order: the first failing step's error, or one report per exam. */
  function Evaluate<X>(exs: seq<Config.Exam>, notEmptyWins: bool,
                       parse: (ExamDispatch.Parser, Config.Exam) -> Result<X, ExamError>,
                       examinate: X -> Report): Result<seq<Report>, ExamError>
  {
    Chain(exs, StepOf(notEmptyWins, parse, examinate))
  }

  /** A successful run has one report per exam, the `k`-th being that of the `k`-th exam. */
  lemma EvaluateAt<X>(exs: seq<Config.Exam>, notEmptyWins: bool,
                      parse: (ExamDispatch.Parser, Config.Exam) -> Result<X, ExamError>,
                      examinate: X -> Report)
    requires Evaluate(exs, notEmptyWins, parse, examinate).Success?
    ensures |Evaluate(exs, notEmptyWins, parse, examinate).value| == |exs|
    ensures forall k | 0 <= k < |exs| ::
              Step(exs[k], notEmptyWins, parse, examinate) == Success(Evaluate(exs, notEmptyWins, parse, examinate).value[k])
  {
    ChainAt(exs, StepOf(notEmptyWins, parse, examinate));
  }

  /**
   * The run fails at the first exam whose tag is unknown or whose
   * configuration does not parse, with that exam's error; no later exam
   * matters.
   */
  lemma FirstErrorWins<X>(exs: seq<Config.Exam>, i: nat, notEmptyWins: bool,
                          parse: (ExamDispatch.Parser, Config.Exam) -> Result<X, ExamError>,
                          examinate: X -> Report)
    requires i < |exs|
    requires forall k | 0 <= k < i :: Step(exs[k], notEmptyWins, parse, examinate).Success?
    requires Step(exs[i], notEmptyWins, parse, examinate).Failure?
    ensures Evaluate(exs, notEmptyWins, parse, examinate) == Failure(Step(exs[i], notEmptyWins, parse, examinate).error)
  {
    ChainFirstError(exs, i, StepOf(notEmptyWins, parse, examinate));
  }

  /** The level `runExams` reports: that of the last report above OK, or OK if there is none. */
  function LastAboveOk(rs: seq<Report>): (l: int)
  {
    if rs == [] then OK
    else if rs[|rs| - 1].lvl > OK then rs[|rs| - 1].lvl
    else LastAboveOk(rs[..|rs| - 1])
  }

  /**
   * The level of a run is OK when no report is above OK, and otherwise the
   * level of a report above OK after which every report is at most OK.
   */
  lemma {:induction false} LastAboveOkSpec(rs: seq<Report>)
    ensures LastAboveOk(rs) == OK || exists k | 0 <= k < |rs| :: rs[k].lvl == LastAboveOk(rs) && LastAboveOk(rs) > OK &&
                                                                forall j | k < j < |rs| :: rs[j].lvl <= OK
    ensures (forall k | 0 <= k < |rs| :: rs[k].lvl <= OK) ==> LastAboveOk(rs) == OK
  {
    if rs != [] && rs[|rs| - 1].lvl <= OK {
      var front := rs[..|rs| - 1];
      LastAboveOkSpec(front);
      assert forall k | 0 <= k < |front| :: front[k] == rs[k];
    }
  }

  /** The last level above OK is kept, not the largest: ERROR then WARNING gives WARNING. */
  lemma LastNotLargest(t: string)
    ensures LastAboveOk([Report(t, ERROR, []), Report(t, WARNING, [])]) == WARNING
  {
  }

  /**
   * `runExams`: stops at the first unknown tag or parse error with
   * `(ERROR, nil, err)`; otherwise one report per exam in order, and the
   * level of the last report above OK.
   */
  method RunExams<X>(exs: seq<Config.Exam>, notEmptyWins: bool,
                     parse: (ExamDispatch.Parser, Config.Exam) -> Result<X, ExamError>,
                     examinate: X -> Report)
    returns (lvl: int, reports: seq<Report>, err: Option<ExamError>)
    ensures Evaluate(exs, notEmptyWins, parse, examinate).Failure? ==>
              lvl == ERROR && reports == [] && err == Some(Evaluate(exs, notEmptyWins, parse, examinate).error)
    ensures Evaluate(exs, notEmptyWins, parse, examinate).Success? ==>
              err == None && reports == Evaluate(exs, notEmptyWins, parse, examinate).value &&
              lvl == LastAboveOk(reports)
  {
    reports, lvl, err := [], OK, None;
    ghost var step := StepOf(notEmptyWins, parse, examinate);
    for i := 0 to |exs|
      invariant Chain(exs[..i], step) == Success(reports)
      invariant lvl == LastAboveOk(reports)
    {
      var ex := exs[i];
      ChainStep(exs, i, step);
      var found := ExamDispatch.GetExamParser(ex.examType, notEmptyWins);
      if found.None? {
        assert step(ex) == Failure(UnknownExam(ex.examType));
        ChainFailureSticks(exs, i + 1, step);
        return ERROR, [], Some(UnknownExam(ex.examType));
      }
      var exam := parse(found.value, ex);
      if exam.Failure? {
        assert step(ex) == Failure(exam.error);
        ChainFailureSticks(exs, i + 1, step);
        return ERROR, [], Some(exam.error);
      }
      var report := examinate(exam.value);
      assert step(ex) == Success(report);
      if report.lvl > OK {
        lvl := report.lvl;
      }
      assert (reports + [report])[..|reports|] == reports;
      reports := reports + [report];
    }
    assert exs[..|exs|] == exs;
  }

  /** What evaluating one protocol's exams gives. */
  type Outcome = Result<seq<Report>, ExamError>

  /**
   * The protocol outcomes taken one after another: the first failure's
   * error, or the larger of the level so far and each protocol's level
   * (OK when there are none) with their reports one protocol after another.
   */
  function Fold(outs: seq<Outcome>): Result<(int, seq<Report>), ExamError>
  {
    if outs == [] then Success((OK, []))
    else
      match Fold(outs[..|outs| - 1])
      case Failure(e) => Failure(e)
      case Success(sofar) =>
        match outs[|outs| - 1]
        case Failure(e) => Failure(e)
        case Success(rs) => Success((Max(sofar.0, LastAboveOk(rs)), sofar.1 + rs))
  }

  /** The outcomes succeed together iff each one does. */
  lemma {:induction false} FoldSucceedsIff(outs: seq<Outcome>)
    ensures Fold(outs).Success? <==> forall k | 0 <= k < |outs| :: outs[k].Success?
  {
    if outs != [] {
      var front := outs[..|outs| - 1];
      FoldSucceedsIff(front);
      assert forall k | 0 <= k < |front| :: front[k] == outs[k];
    }
  }

  /** A failing fold reports the error of the first failing outcome. */
  lemma {:induction false} FoldFirstFailure(outs: seq<Outcome>)
    requires Fold(outs).Failure?
    ensures exists k | 0 <= k < |outs| :: outs[k] == Failure(Fold(outs).error) &&
                                          forall j | 0 <= j < k :: outs[j].Success?
  {
    var front := outs[..|outs| - 1];
    assert forall k | 0 <= k < |front| :: front[k] == outs[k];
    if Fold(front).Failure? {
      FoldFirstFailure(front);
      var k :| 0 <= k < |front| && front[k] == Failure(Fold(front).error) &&
               forall j | 0 <= j < k :: front[j].Success?;
      assert outs[k] == front[k];
    } else {
      FoldSucceedsIff(front);
      assert outs[|outs| - 1] == Failure(Fold(outs).error);
    }
  }

  /**
   * The level of a successful fold is the largest outcome level, or OK:
   * no outcome lies above it, and it is OK or the level of one of them.
   */
  lemma {:induction false} FoldLevel(outs: seq<Outcome>)
    requires Fold(outs).Success?
    ensures forall k | 0 <= k < |outs| :: outs[k].Success?
    ensures OK <= Fold(outs).value.0
    ensures forall k | 0 <= k < |outs| :: LastAboveOk(outs[k].value) <= Fold(outs).value.0
    ensures Fold(outs).value.0 == OK || exists k | 0 <= k < |outs| :: LastAboveOk(outs[k].value) == Fold(outs).value.0
  {
    FoldSucceedsIff(outs);
    if outs != [] {
      var front := outs[..|outs| - 1];
      FoldLevel(front);
      assert forall k | 0 <= k < |front| :: front[k] == outs[k];
      var l := Fold(outs).value.0;
      var sofar := Fold(front).value.0;
      var last := LastAboveOk(outs[|outs| - 1].value);
      assert l == Max(sofar, last);
      if l != OK && l != last {
        var j :| 0 <= j < |front| && LastAboveOk(front[j].value) == sofar;
        assert LastAboveOk(outs[j].value) == l;
      }
    }
  }

  /**
   * The level does not depend on the order the outcomes come in: two
   * successful folds over the same outcomes give the same level.
   */
  lemma FoldLevelOrderFree(outs1: seq<Outcome>, outs2: seq<Outcome>)
    requires forall o :: o in outs1 <==> o in outs2
    requires Fold(outs1).Success? && Fold(outs2).Success?
    ensures Fold(outs1).value.0 == Fold(outs2).value.0
  {
    FoldLevel(outs1);
    FoldLevel(outs2);
    var l1 := Fold(outs1).value.0;
    var l2 := Fold(outs2).value.0;
    if l1 != OK {
      var j :| 0 <= j < |outs1| && LastAboveOk(outs1[j].value) == l1;
      assert outs1[j] in outs2;
    }
    if l2 != OK {
      var j :| 0 <= j < |outs2| && LastAboveOk(outs2[j].value) == l2;
      assert outs2[j] in outs1;
    }
  }

  /** One more outcome. */
  lemma FoldStep(outs: seq<Outcome>, o: Outcome)
    ensures Fold(outs + [o]) ==
              match Fold(outs)
              case Failure(e) => Failure(e)
              case Success(sofar) =>
                match o
                case Failure(e) => Failure(e)
                case Success(rs) => Success((Max(sofar.0, LastAboveOk(rs)), sofar.1 + rs))
  {
    assert (outs + [o])[..|outs|] == outs;
  }

  /** The outcome of each protocol named in `order`, in that order. */
  function Outcomes<X>(order: seq<string>, protocols: map<string, Config.Protocol>, notEmptyWins: bool,
                       parse: (ExamDispatch.Parser, Config.Exam) -> Result<X, ExamError>,
                       examinate: X -> Report): (outs: seq<Outcome>)
    requires forall k | 0 <= k < |order| :: order[k] in protocols
    ensures |outs| == |order|
  {
    if order == [] then []
    else Outcomes(order[..|order| - 1], protocols, notEmptyWins, parse, examinate)
         + [Evaluate(protocols[order[|order| - 1]].exams, notEmptyWins, parse, examinate)]
  }

  /** The `k`-th outcome is that of the `k`-th protocol named. */
  lemma {:induction false} OutcomesAt<X>(order: seq<string>, protocols: map<string, Config.Protocol>, notEmptyWins: bool,
                                         parse: (ExamDispatch.Parser, Config.Exam) -> Result<X, ExamError>,
                                         examinate: X -> Report)
    requires forall k | 0 <= k < |order| :: order[k] in protocols
    ensures forall k | 0 <= k < |order| ::
              Outcomes(order, protocols, notEmptyWins, parse, examinate)[k] ==
              Evaluate(protocols[order[k]].exams, notEmptyWins, parse, examinate)
  {
    if order != [] {
      var front := order[..|order| - 1];
      OutcomesAt(front, protocols, notEmptyWins, parse, examinate);
      assert forall k | 0 <= k < |front| :: front[k] == order[k];
    }
  }

  /** Naming one more protocol adds its outcome at the end. */
  lemma OutcomesStep<X>(order: seq<string>, name: string, protocols: map<string, Config.Protocol>, notEmptyWins: bool,
                        parse: (ExamDispatch.Parser, Config.Exam) -> Result<X, ExamError>,
                        examinate: X -> Report)
    requires forall k | 0 <= k < |order| :: order[k] in protocols
    requires name in protocols
    ensures forall k | 0 <= k < |order + [name]| :: (order + [name])[k] in protocols
    ensures Outcomes(order + [name], protocols, notEmptyWins, parse, examinate) ==
            Outcomes(order, protocols, notEmptyWins, parse, examinate) +
            [Evaluate(protocols[name].exams, notEmptyWins, parse, examinate)]
  {
    assert (order + [name])[..|order|] == order;
  }

  /** Every protocol named in an order whose outcomes all succeed evaluates. */
  lemma AllEvaluate<X>(order: seq<string>, protocols: map<string, Config.Protocol>, notEmptyWins: bool,
                       parse: (ExamDispatch.Parser, Config.Exam) -> Result<X, ExamError>,
                       examinate: X -> Report)
    requires forall k | 0 <= k < |order| :: order[k] in protocols
    requires forall name | name in protocols :: name in order
    requires Fold(Outcomes(order, protocols, notEmptyWins, parse, examinate)).Success?
    ensures forall name | name in protocols :: Evaluate(protocols[name].exams, notEmptyWins, parse, examinate).Success?
  {
    var outs := Outcomes(order, protocols, notEmptyWins, parse, examinate);
    FoldSucceedsIff(outs);
    OutcomesAt(order, protocols, notEmptyWins, parse, examinate);
    forall name | name in protocols
      ensures Evaluate(protocols[name].exams, notEmptyWins, parse, examinate).Success?
    {
      var k :| 0 <= k < |order| && order[k] == name;
      assert outs[k].Success?;
    }
  }

  /**
   * Two visit orders of the same protocols give the same outcome set, so
   * one succeeds iff the other does, and then with the same level; only the
   * order of the reports can differ.
   */
  lemma VisitOrderFree<X>(order1: seq<string>, order2: seq<string>, protocols: map<string, Config.Protocol>,
                          notEmptyWins: bool, parse: (ExamDispatch.Parser, Config.Exam) -> Result<X, ExamError>,
                          examinate: X -> Report)
    requires forall k | 0 <= k < |order1| :: order1[k] in protocols
    requires forall k | 0 <= k < |order2| :: order2[k] in protocols
    requires forall name :: name in order1 <==> name in order2
    ensures Fold(Outcomes(order1, protocols, notEmptyWins, parse, examinate)).Success? <==>
            Fold(Outcomes(order2, protocols, notEmptyWins, parse, examinate)).Success?
    ensures Fold(Outcomes(order1, protocols, notEmptyWins, parse, examinate)).Success? ==>
              Fold(Outcomes(order1, protocols, notEmptyWins, parse, examinate)).value.0 ==
              Fold(Outcomes(order2, protocols, notEmptyWins, parse, examinate)).value.0
  {
    var outs1 := Outcomes(order1, protocols, notEmptyWins, parse, examinate);
    var outs2 := Outcomes(order2, protocols, notEmptyWins, parse, examinate);
    OutcomesAt(order1, protocols, notEmptyWins, parse, examinate);
    OutcomesAt(order2, protocols, notEmptyWins, parse, examinate);
    forall o ensures o in outs1 <==> o in outs2 {
      if o in outs1 {
        var k :| 0 <= k < |outs1| && outs1[k] == o;
        assert order1[k] in order2;
        var j :| 0 <= j < |order2| && order2[j] == order1[k];
        assert outs2[j] == o;
      }
      if o in outs2 {
        var k :| 0 <= k < |outs2| && outs2[k] == o;
        assert order2[k] in order1;
        var j :| 0 <= j < |order1| && order1[j] == order2[k];
        assert outs1[j] == o;
      }
    }
    FoldSucceedsIff(outs1);
    FoldSucceedsIff(outs2);
    forall k | 0 <= k < |outs1| && !outs1[k].Success?
      ensures exists j | 0 <= j < |outs2| :: !outs2[j].Success?
    {
      assert outs1[k] in outs2;
    }
    forall k | 0 <= k < |outs2| && !outs2[k].Success?
      ensures exists j | 0 <= j < |outs1| :: !outs1[j].Success?
    {
      assert outs2[k] in outs1;
    }
    if Fold(outs1).Success? {
      FoldLevelOrderFree(outs1, outs2);
    }
  }

  /**
   * The bookkeeping of `runProtocols`' loop: `order` lists, without
   * repeats, the protocols already run, and `remaining` the others.
   */
  ghost predicate Visited(order: seq<string>, remaining: set<string>, protocols: map<string, Config.Protocol>)
  {
    && remaining <= protocols.Keys
    && (forall k | 0 <= k < |order| :: order[k] in protocols && order[k] !in remaining)
    && (forall name | name in protocols :: name in remaining || name in order)
    && (forall i, j | 0 <= i < j < |order| :: order[i] != order[j])
  }

  /** Running one more protocol keeps the bookkeeping. */
  lemma VisitedStep(order: seq<string>, remaining: set<string>, protocols: map<string, Config.Protocol>, name: string)
    requires Visited(order, remaining, protocols) && name in remaining
    ensures Visited(order + [name], remaining - {name}, protocols)
  {
    var order' := order + [name];
    forall i, j | 0 <= i < j < |order'|
      ensures order'[i] != order'[j]
    {
      if j == |order| {
        assert order'[i] == order[i];
      }
    }
  }

  /**
   * `runProtocols`: the protocols are taken in the map's iteration order,
   * which Go leaves unspecified and which is returned as the ghost `order`.
   * It fails iff some protocol fails; otherwise every protocol is run once.
   */
  method RunProtocols<X>(protocols: map<string, Config.Protocol>, notEmptyWins: bool,
                         parse: (ExamDispatch.Parser, Config.Exam) -> Result<X, ExamError>,
                         examinate: X -> Report)
    returns (lvl: int, reports: seq<Report>, err: Option<ExamError>, ghost order: seq<string>)
    ensures forall k | 0 <= k < |order| :: order[k] in protocols
    ensures forall i, j | 0 <= i < j < |order| :: order[i] != order[j]
    ensures err.None? ==> forall name :: name in protocols <==> name in order
    ensures err.None? ==> Fold(Outcomes(order, protocols, notEmptyWins, parse, examinate)) == Success((lvl, reports))
    ensures err.Some? ==>
              lvl == ERROR && reports == [] &&
              Fold(Outcomes(order, protocols, notEmptyWins, parse, examinate)) == Failure(err.value)
    ensures err.None? <==> forall name | name in protocols ::
              Evaluate(protocols[name].exams, notEmptyWins, parse, examinate).Success?
  {
    lvl, reports, err, order := OK, [], None, [];
    ghost var outs: seq<Outcome> := [];
    var remaining := protocols.Keys;
    while remaining != {}
      invariant Visited(order, remaining, protocols)
      invariant outs == Outcomes(order, protocols, notEmptyWins, parse, examinate)
      invariant Fold(outs) == Success((lvl, reports))
      decreases |remaining|
    {
      var name :| name in remaining;
      var l, rs, e := RunExams(protocols[name].exams, notEmptyWins, parse, examinate);
      ghost var o := Evaluate(protocols[name].exams, notEmptyWins, parse, examinate);
      FoldStep(outs, o);
      OutcomesStep(order, name, protocols, notEmptyWins, parse, examinate);
      VisitedStep(order, remaining, protocols, name);
      order := order + [name];
      outs := outs + [o];
      remaining := remaining - {name};
      if e.Some? {
        lvl, reports, err := ERROR, [], e;
        return;
      }
      lvl := Max(lvl, l);
      reports := reports + rs;
    }
    AllEvaluate(order, protocols, notEmptyWins, parse, examinate);
  }

  /** The protocols of `protocols` whose names were asked for. */
  function Selected(protocols: map<string, Config.Protocol>, names: seq<string>): (m: map<string, Config.Protocol>)
    ensures forall k :: k in m <==> k in protocols && k in names
    ensures forall k | k in m :: m[k] == protocols[k]
  {
    map k | k in protocols && k in names :: protocols[k]
  }

  /**
   * `Run`. A failing base run returns `(ERROR, nil, err)` before the
   * configuration is touched. Otherwise every protocol not named in
   * `names` is deleted from `config.protocols` in place (names that are
   * not declared are ignored), the remaining protocols are run, and the
   * result is the larger of the two levels with the base reports first.
   */
  method Run<X>(config: Config.Medik, names: seq<string>, notEmptyWins: bool,
                parse: (ExamDispatch.Parser, Config.Exam) -> Result<X, ExamError>,
                examinate: X -> Report)
    returns (lvl: int, reports: seq<Report>, err: Option<ExamError>, ghost order: seq<string>)
    modifies config
    ensures config.exams == old(config.exams)
    ensures Evaluate(old(config.exams), notEmptyWins, parse, examinate).Failure? ==>
              lvl == ERROR && reports == [] && config.protocols == old(config.protocols) &&
              err == Some(Evaluate(old(config.exams), notEmptyWins, parse, examinate).error)
    ensures Evaluate(old(config.exams), notEmptyWins, parse, examinate).Success? ==>
              config.protocols == Selected(old(config.protocols), names) &&
              (forall k | 0 <= k < |order| :: order[k] in config.protocols) &&
              var base := Evaluate(old(config.exams), notEmptyWins, parse, examinate).value;
              match Fold(Outcomes(order, config.protocols, notEmptyWins, parse, examinate))
              case Failure(e) => lvl == ERROR && reports == [] && err == Some(e)
              case Success(rest) => err == None && lvl == Max(LastAboveOk(base), rest.0) && reports == base + rest.1 &&
                                    forall name :: name in config.protocols <==> name in order
  {
    order := [];
    var baseLvl, baseReports, baseErr := RunExams(config.exams, notEmptyWins, parse, examinate);
    if baseErr.Some? {
      return ERROR, [], baseErr, order;
    }
    var keys := config.protocols.Keys;
    while keys != {}
      invariant keys <= old(config.protocols).Keys
      invariant config.exams == old(config.exams)
      invariant forall k :: k in config.protocols <==> k in old(config.protocols) && (k in keys || k in names)
      invariant forall k | k in config.protocols :: config.protocols[k] == old(config.protocols)[k]
      decreases |keys|
    {
      var k :| k in keys;
      if k !in names {
        config.protocols := config.protocols - {k};
      }
      keys := keys - {k};
    }
    assert config.protocols == Selected(old(config.protocols), names);
    var protocolsLvl, protocolsReports, protocolsErr;
    protocolsLvl, protocolsReports, protocolsErr, order := RunProtocols(config.protocols, notEmptyWins, parse, examinate);
    if protocolsErr.Some? {
      return ERROR, [], protocolsErr, order;
    }
    lvl, reports, err := Max(baseLvl, protocolsLvl), baseReports + protocolsReports, None;
  }
}
