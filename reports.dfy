/**
 * The report shape shared by `EnvReport` (pkg/exams/env/env.go) and
 * `FileReport` (pkg/exams/file/file.go): an exam tag, a level and one
 * status per target. The two Go types differ only in the name of the
 * target field (`Var` or `Path`), so both are `Report` here.
 */
module Reports {
  import opened Severity

  /** One target's outcome. */
  datatype Status = Status(lvl: int, target: string, message: string)

  datatype Report = Report(examType: string, lvl: int, statuses: seq<Status>)

  /** A validator's status with its level lowered to at most `level`. */
  function Clamp(s: Status, level: int): (c: Status)
    ensures c.lvl <= level && c.lvl <= s.lvl
    ensures c.lvl == s.lvl || c.lvl == level
    ensures c.target == s.target && c.message == s.message
  {
    if s.lvl > level then s.(lvl := level) else s
  }

  /** The largest status level, with OK as the floor. */
  function MaxLevel(sts: seq<Status>): (m: int)
    ensures m >= OK
  {
    if sts == [] then OK else Max(MaxLevel(sts[..|sts| - 1]), sts[|sts| - 1].lvl)
  }

  /** The maximum bounds every status level, and is OK or one of them. */
  lemma {:induction false} MaxLevelSpec(sts: seq<Status>)
    ensures forall k | 0 <= k < |sts| :: sts[k].lvl <= MaxLevel(sts)
    ensures MaxLevel(sts) == OK || exists k | 0 <= k < |sts| :: sts[k].lvl == MaxLevel(sts)
  {
    if sts != [] {
      var front := sts[..|sts| - 1];
      MaxLevelSpec(front);
      assert forall k | 0 <= k < |front| :: front[k] == sts[k];
    }
  }

  /** With every status at most a non-negative bound, so is their maximum. */
  lemma {:induction false} MaxLevelAtMost(sts: seq<Status>, bound: int)
    requires bound >= OK
    requires forall k | 0 <= k < |sts| :: sts[k].lvl <= bound
    ensures MaxLevel(sts) <= bound
  {
    if sts != [] {
      var front := sts[..|sts| - 1];
      assert forall k | 0 <= k < |front| :: front[k] == sts[k];
      MaxLevelAtMost(front, bound);
    }
  }

  /** One more status raises the maximum to its level, if higher. */
  lemma MaxLevelAppend(sts: seq<Status>, s: Status)
    ensures MaxLevel(sts + [s]) == Max(MaxLevel(sts), s.lvl)
  {
    assert (sts + [s])[..|sts|] == sts;
  }

  /** The statuses at or above the verbosity, in their order. */
  function Shown(sts: seq<Status>, verbosity: int): seq<Status>
  {
    if sts == [] then []
    else Shown(sts[..|sts| - 1], verbosity) + (if sts[|sts| - 1].lvl >= verbosity then [sts[|sts| - 1]] else [])
  }

  /** Filtering keeps the order: it distributes over concatenation. */
  lemma {:induction false} ShownAppend(a: seq<Status>, b: seq<Status>, verbosity: int)
    ensures Shown(a + b, verbosity) == Shown(a, verbosity) + Shown(b, verbosity)
    decreases |b|
  {
    if b == [] {
      assert a + b == a;
    } else {
      var b' := b[..|b| - 1];
      assert (a + b)[..|a + b| - 1] == a + b';
      assert (a + b)[|a + b| - 1] == b[|b| - 1];
      ShownAppend(a, b', verbosity);
    }
  }

  /** Exactly the statuses at or above the verbosity are shown. */
  lemma {:induction false} ShownMembers(sts: seq<Status>, verbosity: int)
    ensures |Shown(sts, verbosity)| <= |sts|
    ensures forall s | s in Shown(sts, verbosity) :: s in sts && s.lvl >= verbosity
    ensures forall s | s in sts && s.lvl >= verbosity :: s in Shown(sts, verbosity)
  {
    if sts != [] {
      var p := sts[..|sts| - 1];
      ShownMembers(p, verbosity);
      assert sts == p + [sts[|sts| - 1]];
    }
  }

  /** The rendered body: one newline-terminated line per status, in order. */
  function Lines(sts: seq<Status>, render: (string, string, int) -> string): string
  {
    if sts == [] then ""
    else
      var s := sts[|sts| - 1];
      Lines(sts[..|sts| - 1], render) + render(s.target, s.message, s.lvl) + "\n"
  }

  /** A body is empty iff there is no line in it. */
  lemma {:induction false} LinesEmptyIff(sts: seq<Status>, render: (string, string, int) -> string)
    ensures Lines(sts, render) == "" <==> sts == []
  {
    if sts != [] {
      var s := sts[|sts| - 1];
      var l := Lines(sts[..|sts| - 1], render) + render(s.target, s.message, s.lvl) + "\n";
      assert l[|l| - 1] == '\n';
    }
  }

  /**
   * `Report.Format(verbosity)`: the level unchanged, the header of the tag
   * and level, and the body of the statuses at or above the verbosity.
   * `format.ReportHeader` and `format.ReportStatus` are parameters.
   */
  method Format(r: Report, verbosity: int, renderHeader: (string, int) -> string,
                renderStatus: (string, string, int) -> string)
    returns (lvl: int, header: string, body: string)
    ensures lvl == r.lvl
    ensures header == renderHeader(r.examType, r.lvl)
    ensures body == Lines(Shown(r.statuses, verbosity), renderStatus)
  {
    body := "";
    for i := 0 to |r.statuses|
      invariant body == Lines(Shown(r.statuses[..i], verbosity), renderStatus)
    {
      var s := r.statuses[i];
      var before := Shown(r.statuses[..i], verbosity);
      assert r.statuses[..i + 1] == r.statuses[..i] + [s];
      ShownAppend(r.statuses[..i], [s], verbosity);
      ShownSingle(s, verbosity);
      if s.lvl >= verbosity {
        LinesSnoc(before, s, renderStatus);
        body := body + renderStatus(s.target, s.message, s.lvl) + "\n";
      } else {
        assert before + [] == before;
      }
    }
    assert r.statuses[..|r.statuses|] == r.statuses;
    lvl, header := r.lvl, renderHeader(r.examType, r.lvl);
  }

  lemma ShownSingle(s: Status, verbosity: int)
    ensures Shown([s], verbosity) == if s.lvl >= verbosity then [s] else []
  {
    assert [s][..0] == [];
  }

  lemma LinesSnoc(sts: seq<Status>, s: Status, render: (string, string, int) -> string)
    ensures Lines(sts + [s], render) == Lines(sts, render) + render(s.target, s.message, s.lvl) + "\n"
  {
    assert (sts + [s])[..|sts|] == sts;
  }

  /** The body is empty iff no status reaches the verbosity. */
  lemma BodyEmptyIff(sts: seq<Status>, verbosity: int, render: (string, string, int) -> string)
    ensures Lines(Shown(sts, verbosity), render) == "" <==> forall k | 0 <= k < |sts| :: sts[k].lvl < verbosity
  {
    LinesEmptyIff(Shown(sts, verbosity), render);
    ShownMembers(sts, verbosity);
    if Shown(sts, verbosity) == [] {
      forall k | 0 <= k < |sts| ensures sts[k].lvl < verbosity {
        assert sts[k] in sts;
      }
    } else {
      var s := Shown(sts, verbosity)[0];
      assert s in Shown(sts, verbosity);
      var k :| 0 <= k < |sts| && sts[k] == s;
    }
  }

  /**
   * An example: a report with one OK and one WARNING status
   * has an empty body at verbosity ERROR and shows both at verbosity OK.
   */
  lemma FormatExample(t: string, render: (string, string, int) -> string)
    ensures var sts := [Status(OK, t, "is valid"), Status(WARNING, t, "is not set")];
            && Lines(Shown(sts, ERROR), render) == ""
            && Shown(sts, OK) == sts
  {
    var sts := [Status(OK, t, "is valid"), Status(WARNING, t, "is not set")];
    assert sts[..1] == [sts[0]];
    ShownSingle(sts[0], OK);
    BodyEmptyIff(sts, ERROR, render);
  }
}
