/**
 * The scanning pattern the list-reporting `env.*` exams share
 * (is_set, not_empty, int, ipv4, ip and regex, options, int-range):
 * walk `vars` in order, collect the unset and the invalid variables (or
 * fill one error slot per variable), and turn the lists into one message.
 */
module EnvScan {
  import opened Wrappers
  import opened Errors
  import opened Live
  import GoStrings

  /** The unset variables of `vars`, in order and with repetitions. */
  function Unset(env: Env, vars: seq<string>): (u: seq<string>)
    ensures |u| <= |vars|
  {
    if vars == [] then []
    else
      var last := vars[|vars| - 1];
      Unset(env, vars[..|vars| - 1]) + (if last !in env then [last] else [])
  }

  /** The set variables of `vars` whose value fails `valid`, in order. */
  function Invalid(env: Env, vars: seq<string>, valid: string -> bool): (bad: seq<string>)
    ensures |bad| <= |vars|
  {
    if vars == [] then []
    else
      var last := vars[|vars| - 1];
      Invalid(env, vars[..|vars| - 1], valid) + (if last in env && !valid(env[last]) then [last] else [])
  }

  /** The unset list holds exactly the variables that are not set. */
  lemma {:induction false} UnsetMembers(env: Env, vars: seq<string>)
    ensures forall v :: v in Unset(env, vars) <==> v in vars && v !in env
  {
    if vars != [] {
      var front := vars[..|vars| - 1];
      UnsetMembers(env, front);
      assert vars == front + [vars[|vars| - 1]];
    }
  }

  /** The invalid list holds exactly the set variables whose value fails the check. */
  lemma {:induction false} InvalidMembers(env: Env, vars: seq<string>, valid: string -> bool)
    ensures forall v :: v in Invalid(env, vars, valid) <==> v in vars && v in env && !valid(env[v])
  {
    if vars != [] {
      var front := vars[..|vars| - 1];
      InvalidMembers(env, front, valid);
      assert vars == front + [vars[|vars| - 1]];
    }
  }

  /** No variable is in both lists. */
  lemma Disjoint(env: Env, vars: seq<string>, valid: string -> bool)
    ensures forall v | v in Unset(env, vars) :: v !in Invalid(env, vars, valid)
  {
    UnsetMembers(env, vars);
    InvalidMembers(env, vars, valid);
  }

  /** Scanning two runs of variables one after the other lists their unset variables in that order. */
  lemma {:induction false} UnsetAppend(env: Env, a: seq<string>, b: seq<string>)
    ensures Unset(env, a + b) == Unset(env, a) + Unset(env, b)
    decreases |b|
  {
    if b == [] {
      assert a + b == a;
    } else {
      var b' := b[..|b| - 1];
      assert (a + b)[..|a + b| - 1] == a + b';
      assert (a + b)[|a + b| - 1] == b[|b| - 1];
      UnsetAppend(env, a, b');
    }
  }

  /** The same for the invalid variables. */
  lemma {:induction false} InvalidAppend(env: Env, a: seq<string>, b: seq<string>, valid: string -> bool)
    ensures Invalid(env, a + b, valid) == Invalid(env, a, valid) + Invalid(env, b, valid)
    decreases |b|
  {
    if b == [] {
      assert a + b == a;
    } else {
      var b' := b[..|b| - 1];
      assert (a + b)[..|a + b| - 1] == a + b';
      assert (a + b)[|a + b| - 1] == b[|b| - 1];
      InvalidAppend(env, a, b', valid);
    }
  }

  /** The loop of the list-reporting exams: one pass, unset before value check. */
  method Partition(env: Env, vars: seq<string>, valid: string -> bool)
    returns (unset: seq<string>, invalid: seq<string>)
    ensures unset == Unset(env, vars)
    ensures invalid == Invalid(env, vars, valid)
  {
    unset, invalid := [], [];
    for i := 0 to |vars|
      invariant unset == Unset(env, vars[..i])
      invariant invalid == Invalid(env, vars[..i], valid)
    {
      var v := vars[i];
      assert vars[..i + 1][..i] == vars[..i];
      if v !in env {
        unset := unset + [v];
      } else if !valid(env[v]) {
        invalid := invalid + [v];
      }
    }
    assert vars[..|vars|] == vars;
  }

  /**
   * The error text the list-reporting exams build: one line for the unset
   * variables, then one line starting with `heading` for the invalid ones.
   */
  function ListsMessage(unset: seq<string>, heading: string, invalid: seq<string>): (m: string)
    ensures m == "" <==> unset == [] && invalid == []
  {
    (if |unset| > 0 then "environment variables not set " + GoStrings.FormatList(unset) + "\n" else "")
    + (if |invalid| > 0 then heading + GoStrings.FormatList(invalid) + "\n" else "")
  }

  /** Both lists are empty iff every variable is set to a valid value. */
  lemma NoneListedIff(env: Env, vars: seq<string>, valid: string -> bool)
    ensures Unset(env, vars) == [] && Invalid(env, vars, valid) == []
            <==> forall v | v in vars :: v in env && valid(env[v])
  {
    var u, bad := Unset(env, vars), Invalid(env, vars, valid);
    UnsetMembers(env, vars);
    InvalidMembers(env, vars, valid);
    if u != [] {
      assert u[0] in u;
    }
    if bad != [] {
      assert bad[0] in bad;
    }
  }

  /** One variable's slot in the `errors` slice: unset, else the exam's own check. */
  function Slot(env: Env, name: string, check: (string, string) -> Option<VarError>): Option<VarError>
  {
    if name !in env then Some(UnsetEnvVar(name)) else check(name, env[name])
  }

  /**
   * The loop of the exams returning `(bool, []error)`: a slice as long as
   * `vars` with one slot per variable; the exam passes iff every slot is
   * empty, and then returns no slice at all.
   */
  method CheckEach(env: Env, vars: seq<string>, check: (string, string) -> Option<VarError>)
    returns (ok: bool, errors: seq<Option<VarError>>)
    ensures ok <==> forall v | v in vars :: Slot(env, v, check).None?
    ensures ok ==> errors == []
    ensures !ok ==> |errors| == |vars| && forall k | 0 <= k < |vars| :: errors[k] == Slot(env, vars[k], check)
  {
    var slots := new Option<VarError>[|vars|](_ => None);
    var hasError := false;
    for i := 0 to |vars|
      invariant forall k | 0 <= k < i :: slots[k] == Slot(env, vars[k], check)
      invariant forall k | i <= k < |vars| :: slots[k] == None
      invariant hasError <==> exists k | 0 <= k < i :: slots[k].Some?
    {
      var v := vars[i];
      if v !in env {
        hasError := true;
        slots[i] := Some(UnsetEnvVar(v));
      } else {
        var e := check(v, env[v]);
        if e.Some? {
          hasError := true;
          slots[i] := e;
        }
      }
    }
    if hasError {
      var k :| 0 <= k < |vars| && slots[k].Some?;
      assert vars[k] in vars;
      ok, errors := false, slots[..];
    } else {
      ok, errors := true, [];
    }
  }
}
