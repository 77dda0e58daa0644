/** Processing one student (stograde/toolkit/process_student.py): preparing
    the student's repository, recording and analysing the assignments, and
    resetting the repository afterwards.

    The repository operations, `record` and `analyze` are parameters that
    succeed or raise. A run reports the outcome and the calls made, in order. */
module StudentProcessing {
  import opened Outcomes

  /** The assignment specs, as `record` and `analyze` receive them; their
      contents are not part of this model. */
  type Specs

  /** What `record` produces; `process_student` ignores it. */
  type Recorded

  /** Something `analyze` attaches to a student's result; its contents are
      not part of this model. */
  type Annotation(==)

  /** A student's result: the name, what analysis attached, and the error
      that stopped processing, if one did. */
  datatype StudentResult = StudentResult(name: string, annotations: seq<Annotation>, error: Option<Exception>)

  /** `StudentResult(name=student)`: nothing attached, no error. */
  function NewStudentResult(student: string): (r: StudentResult)
    ensures r.name == student && r.annotations == [] && r.error.None?
  {
    StudentResult(student, [], None)
  }

  /** The keyword arguments of `process_student`. */
  datatype Options = Options(
    assignments: seq<string>,
    basedir: string,
    ci: bool,
    clean: bool,
    date: string,
    debug: bool,
    interact: bool,
    noBranchCheck: bool,
    noRepoUpdate: bool,
    specs: Specs,
    skipWebCompile: bool,
    stogitUrl: string)

  /** The operations `process_student` calls. `analyze` fills in the result
      it is given; the model has it return the filled-in result. */
  datatype StudentEnv = StudentEnv(
    remove: string -> Result<(), Exception>,
    clone: (string, string) -> Result<(), Exception>,
    stash: (string, bool) -> Result<(), Exception>,
    pull: (string, bool) -> Result<(), Exception>,
    checkoutDate: (string, string) -> Result<(), Exception>,
    record: (string, Options) -> Result<Recorded, Exception>,
    analyze: (StudentResult, Specs, bool, bool) -> Result<StudentResult, Exception>,
    reset: string -> Result<(), Exception>)

  /** A call, as it appears in a run's trace. */
  datatype Call =
    | Remove
    | Clone(url: string)
    | Stash(noRepoUpdate: bool)
    | Pull(noRepoUpdate: bool)
    | CheckoutDate(date: string)
    | Record
    | Analyze(checkForBranches: bool, ci: bool)
    | Reset

  /** What a run leaves behind. */
  datatype Run = Run(outcome: Result<StudentResult, Exception>, calls: seq<Call>)

  // ---------------------------------------------------------------------
  // process_student
  // ---------------------------------------------------------------------

  /** The body of the `try` block: its outcome and its calls. */
  function Attempt(student: string, o: Options, env: StudentEnv): (r: (Result<StudentResult, Exception>, seq<Call>))
    ensures r.0.Ok? ==> env.analyze(NewStudentResult(student), o.specs, !o.noBranchCheck, o.ci) == Ok(r.0.value)
  {
    var repo := if o.ci then [] else [Stash(o.noRepoUpdate), Pull(o.noRepoUpdate), CheckoutDate(o.date)];
    if !o.ci && env.stash(student, o.noRepoUpdate).Err? then
      (Err(env.stash(student, o.noRepoUpdate).error), [Stash(o.noRepoUpdate)])
    else if !o.ci && env.pull(student, o.noRepoUpdate).Err? then
      (Err(env.pull(student, o.noRepoUpdate).error), [Stash(o.noRepoUpdate), Pull(o.noRepoUpdate)])
    else if !o.ci && env.checkoutDate(student, o.date).Err? then
      (Err(env.checkoutDate(student, o.date).error), repo)
    else
      var recorded := env.record(student, o);
      if recorded.Err? then (Err(recorded.error), repo + [Record])
      else
        var analysis := Analyze(!o.noBranchCheck, o.ci);
        var analyzed := env.analyze(NewStudentResult(student), o.specs, !o.noBranchCheck, o.ci);
        if analyzed.Err? then (Err(analyzed.error), repo + [Record, analysis])
        else if o.date == "" then (Ok(analyzed.value), repo + [Record, analysis])
        else if env.reset(student).Err? then (Err(env.reset(student).error), repo + [Record, analysis, Reset])
        else (Ok(analyzed.value), repo + [Record, analysis, Reset])
  }

  /** `process_student`. Removing and cloning happen before the `try` block,
      so their errors always propagate; an error inside it propagates only
      with `debug` on, and otherwise becomes a result holding the student's
      name and the error. */
  function ProcessStudent(student: string, o: Options, env: StudentEnv): (run: Run)
    ensures o.clean <==> |run.calls| > 0 && run.calls[0] == Remove
    ensures o.ci ==> forall i :: 0 <= i < |run.calls| ==> run.calls[i] in [Remove, Record, Analyze(!o.noBranchCheck, o.ci), Reset]
  {
    var removal := if o.clean then [Remove] else [];
    if o.clean && env.remove(student).Err? then Run(Err(env.remove(student).error), removal)
    else
      var cloning := removal + (if o.ci then [] else [Clone(o.stogitUrl)]);
      if !o.ci && env.clone(student, o.stogitUrl).Err? then Run(Err(env.clone(student, o.stogitUrl).error), cloning)
      else
        var attempt := Attempt(student, o, env);
        match attempt.0
        case Ok(result) => Run(Ok(result), cloning + attempt.1)
        case Err(err) =>
          if o.debug then Run(Err(err), cloning + attempt.1)
          else Run(Ok(StudentResult(student, [], Some(err))), cloning + attempt.1)
  }

  // ---------------------------------------------------------------------
  // The plan of calls
  // ---------------------------------------------------------------------

  /** The calls made before the `try` block: removing, then cloning. */
  function OuterPlan(o: Options): (plan: seq<Call>)
    ensures forall i :: 0 <= i < |plan| ==> plan[i].Remove? || plan[i].Clone?
  {
    (if o.clean then [Remove] else []) + (if o.ci then [] else [Clone(o.stogitUrl)])
  }

  /** The calls of the `try` block, in order: the repository steps outside
      CI, recording, analysis, and the reset when a date was checked out. */
  function TryPlan(o: Options): (plan: seq<Call>)
    ensures forall i :: 0 <= i < |plan| ==> !plan[i].Remove? && !plan[i].Clone?
  {
    (if o.ci then [] else [Stash(o.noRepoUpdate), Pull(o.noRepoUpdate), CheckoutDate(o.date)])
    + [Record, Analyze(!o.noBranchCheck, o.ci)]
    + (if o.date == "" then [] else [Reset])
  }

  /** Every call `process_student` may make, in the order it makes them. */
  function Plan(o: Options): (plan: seq<Call>)
    ensures |plan| == |OuterPlan(o)| + |TryPlan(o)|
  {
    OuterPlan(o) + TryPlan(o)
  }

  /** The error an outcome carries, if any. */
  function ErrorOf<T>(r: Result<T, Exception>): (e: Option<Exception>)
    ensures e.None? <==> r.Ok?
    ensures r.Err? ==> e == Some(r.error)
  {
    if r.Err? then Some(r.error) else None
  }

  /** The error a call of the plan raises, if it raises. */
  function StepError(student: string, o: Options, env: StudentEnv, c: Call): Option<Exception>
  {
    match c
    case Remove => ErrorOf(env.remove(student))
    case Clone(url) => ErrorOf(env.clone(student, url))
    case Stash(noRepoUpdate) => ErrorOf(env.stash(student, noRepoUpdate))
    case Pull(noRepoUpdate) => ErrorOf(env.pull(student, noRepoUpdate))
    case CheckoutDate(date) => ErrorOf(env.checkoutDate(student, date))
    case Record => ErrorOf(env.record(student, o))
    case Analyze(checkForBranches, ci) => ErrorOf(env.analyze(NewStudentResult(student), o.specs, checkForBranches, ci))
    case Reset => ErrorOf(env.reset(student))
  }

  /** Making `steps` one after another until one raises: the calls made and
      the error that stopped them. */
  function Executed(student: string, o: Options, env: StudentEnv, steps: seq<Call>): (r: (seq<Call>, Option<Exception>))
    ensures |r.0| <= |steps|
    ensures r.1.Some? ==> |r.0| > 0
  {
    if steps == [] then ([], None)
    else
      var e := StepError(student, o, env, steps[0]);
      if e.Some? then ([steps[0]], e)
      else
        var rest := Executed(student, o, env, steps[1..]);
        ([steps[0]] + rest.0, rest.1)
  }

  /** The calls made are a prefix of the plan; they all succeed except the
      last, whose error stops the run; the whole plan is made exactly when
      no call of it raises. */
  lemma {:induction false} ExecutedPrefix(student: string, o: Options, env: StudentEnv, steps: seq<Call>)
    ensures var r := Executed(student, o, env, steps);
            && r.0 == steps[..|r.0|]
            && (r.1.None? <==> forall i :: 0 <= i < |steps| ==> StepError(student, o, env, steps[i]).None?)
            && (r.1.None? ==> r.0 == steps)
            && (r.1.Some? ==> r.1 == StepError(student, o, env, r.0[|r.0| - 1])
                              && forall i :: 0 <= i < |r.0| - 1 ==> StepError(student, o, env, r.0[i]).None?)
    decreases |steps|
  {
    if steps != [] && StepError(student, o, env, steps[0]).None? {
      ExecutedPrefix(student, o, env, steps[1..]);
      var rest := Executed(student, o, env, steps[1..]);
      var r := Executed(student, o, env, steps);
      assert r.0 == [steps[0]] + rest.0;
      assert forall i :: 1 <= i < |steps| ==> steps[i] == steps[1..][i - 1];
      assert forall i :: 1 <= i < |r.0| ==> r.0[i] == rest.0[i - 1];
    }
  }

  /** Executing a plan one call at a time. */
  lemma ExecutedCons(student: string, o: Options, env: StudentEnv, c: Call, rest: seq<Call>)
    ensures var e := StepError(student, o, env, c);
            var r := Executed(student, o, env, rest);
            Executed(student, o, env, [c] + rest) == if e.Some? then ([c], e) else ([c] + r.0, r.1)
  {
    assert ([c] + rest)[1..] == rest;
  }

  /** Executing two plans in sequence: the second starts only when the
      first completes. */
  lemma {:induction false} ExecutedConcat(student: string, o: Options, env: StudentEnv, a: seq<Call>, b: seq<Call>)
    ensures var ra := Executed(student, o, env, a);
            var rb := Executed(student, o, env, b);
            Executed(student, o, env, a + b) == if ra.1.Some? then ra else (ra.0 + rb.0, rb.1)
    decreases |a|
  {
    if a != [] {
      assert (a + b)[1..] == a[1..] + b;
      ExecutedConcat(student, o, env, a[1..], b);
      if StepError(student, o, env, a[0]).None? {
        var ra' := Executed(student, o, env, a[1..]);
        var rb := Executed(student, o, env, b);
        if ra'.1.None? {
          assert [a[0]] + (ra'.0 + rb.0) == ([a[0]] + ra'.0) + rb.0;
        }
      }
    } else {
      assert a + b == b;
      assert [] + Executed(student, o, env, b).0 == Executed(student, o, env, b).0;
    }
  }

  /** The `try` block makes the calls of its plan in order, stops at the
      first that raises, and fails with that call's error. */
  lemma AttemptFollowsPlan(student: string, o: Options, env: StudentEnv)
    ensures var attempt := Attempt(student, o, env);
            var ex := Executed(student, o, env, TryPlan(o));
            && attempt.1 == ex.0
            && (attempt.0.Ok? <==> ex.1.None?)
            && (ex.1.Some? ==> attempt.0 == Err(ex.1.value))
  {
    var repo := if o.ci then [] else [Stash(o.noRepoUpdate), Pull(o.noRepoUpdate), CheckoutDate(o.date)];
    var body := [Record, Analyze(!o.noBranchCheck, o.ci)] + (if o.date == "" then [] else [Reset]);
    assert TryPlan(o) == repo + body;
    ExecutedConcat(student, o, env, repo, body);
    if o.ci {
      assert Executed(student, o, env, repo) == ([], None);
    } else {
      RepositorySteps(student, o, env);
    }
    if Executed(student, o, env, repo).1.None? {
      AttemptAfterRepository(student, o, env);
    }
  }

  /** Outside CI the `try` block first stashes, pulls and checks out the
      date, stopping at the first of them that raises. */
  lemma RepositorySteps(student: string, o: Options, env: StudentEnv)
    requires !o.ci
    ensures var stash, pull, checkout := Stash(o.noRepoUpdate), Pull(o.noRepoUpdate), CheckoutDate(o.date);
            Executed(student, o, env, [stash, pull, checkout])
            == if env.stash(student, o.noRepoUpdate).Err? then ([stash], Some(env.stash(student, o.noRepoUpdate).error))
               else if env.pull(student, o.noRepoUpdate).Err? then ([stash, pull], Some(env.pull(student, o.noRepoUpdate).error))
               else if env.checkoutDate(student, o.date).Err? then ([stash, pull, checkout], Some(env.checkoutDate(student, o.date).error))
               else ([stash, pull, checkout], None)
  {
    var stash, pull, checkout := Stash(o.noRepoUpdate), Pull(o.noRepoUpdate), CheckoutDate(o.date);
    ExecutedCons(student, o, env, checkout, []);
    ExecutedCons(student, o, env, pull, [checkout]);
    ExecutedCons(student, o, env, stash, [pull, checkout]);
    assert [stash, pull, checkout] == [stash] + [pull, checkout];
    assert [pull, checkout] == [pull] + [checkout];
    assert [checkout] + [] == [checkout];
    assert [stash] + [pull] == [stash, pull];
  }

  /** Once the repository steps succeed, the `try` block records, analyses
      and resets in that order, stopping at the first error. */
  lemma AttemptAfterRepository(student: string, o: Options, env: StudentEnv)
    requires o.ci || (env.stash(student, o.noRepoUpdate).Ok? && env.pull(student, o.noRepoUpdate).Ok?
                      && env.checkoutDate(student, o.date).Ok?)
    ensures var attempt := Attempt(student, o, env);
            var repo := if o.ci then [] else [Stash(o.noRepoUpdate), Pull(o.noRepoUpdate), CheckoutDate(o.date)];
            var rest := Executed(student, o, env, [Record, Analyze(!o.noBranchCheck, o.ci)] + (if o.date == "" then [] else [Reset]));
            && attempt.1 == repo + rest.0
            && (attempt.0.Ok? <==> rest.1.None?)
            && (rest.1.Some? ==> attempt.0 == Err(rest.1.value))
  {
    var analysis := Analyze(!o.noBranchCheck, o.ci);
    ExecutedCons(student, o, env, analysis, if o.date == "" then [] else [Reset]);
    ExecutedCons(student, o, env, Record, [analysis] + (if o.date == "" then [] else [Reset]));
    assert [Record, analysis] + (if o.date == "" then [] else [Reset])
        == [Record] + ([analysis] + (if o.date == "" then [] else [Reset]));
    if o.date != "" {
      ExecutedCons(student, o, env, Reset, []);
    }
  }

  /** `process_student` makes the calls of its plan in order and stops at the
      first one that raises. Its outcome is the analysed result when none
      raises; an error from removing or cloning, or any error with `debug`
      on, propagates; any other error becomes a result holding only the
      student's name and the error. */
  lemma FollowsPlan(student: string, o: Options, env: StudentEnv)
    ensures var run := ProcessStudent(student, o, env);
            var ex := Executed(student, o, env, Plan(o));
            && run.calls == ex.0
            && (ex.1.None? ==> run.outcome.Ok? && Ok(run.outcome.value) == env.analyze(NewStudentResult(student), o.specs, !o.noBranchCheck, o.ci))
            && (ex.1.Some? ==>
                  var last := ex.0[|ex.0| - 1];
                  if o.debug || last.Remove? || last.Clone? then run.outcome == Err(ex.1.value)
                  else run.outcome == Ok(StudentResult(student, [], Some(ex.1.value))))
  {
    var outer := OuterPlan(o);
    ExecutedConcat(student, o, env, outer, TryPlan(o));
    OuterSteps(student, o, env);
    var eo := Executed(student, o, env, outer);
    var et := Executed(student, o, env, TryPlan(o));
    var ex := Executed(student, o, env, Plan(o));
    if eo.1.None? {
      AttemptFollowsPlan(student, o, env);
      assert ex == (outer + et.0, et.1);
      if et.1.Some? {
        ExecutedPrefix(student, o, env, TryPlan(o));
        assert et.0[|et.0| - 1] == TryPlan(o)[|et.0| - 1];
        assert ex.0[|ex.0| - 1] == et.0[|et.0| - 1];
      }
    }
  }

  /** Before the `try` block the student's folder is removed (with `clean`)
      and the repository cloned (outside CI), stopping at the first that raises. */
  lemma OuterSteps(student: string, o: Options, env: StudentEnv)
    ensures Executed(student, o, env, OuterPlan(o))
            == if o.clean && env.remove(student).Err? then ([Remove], Some(env.remove(student).error))
               else if !o.ci && env.clone(student, o.stogitUrl).Err? then (OuterPlan(o), Some(env.clone(student, o.stogitUrl).error))
               else (OuterPlan(o), None)
  {
    var removal := if o.clean then [Remove] else [];
    var cloning := if o.ci then [] else [Clone(o.stogitUrl)];
    ExecutedConcat(student, o, env, removal, cloning);
    if o.clean {
      ExecutedCons(student, o, env, Remove, []);
      assert [Remove] + [] == [Remove];
    }
    if !o.ci {
      ExecutedCons(student, o, env, Clone(o.stogitUrl), []);
      assert [Clone(o.stogitUrl)] + [] == [Clone(o.stogitUrl)];
    }
  }

  /** The calls `process_student` makes are those of its plan up to the
      first that raises. */
  lemma TraceFollowsPlan(student: string, o: Options, env: StudentEnv)
    ensures ProcessStudent(student, o, env).calls == Executed(student, o, env, Plan(o)).0
  {
    FollowsPlan(student, o, env);
  }

  /** A plan whose first `k` calls succeed and whose call `k` raises stops
      right after that call, with its error. */
  lemma {:induction false} ExecutedStopsAt(student: string, o: Options, env: StudentEnv, steps: seq<Call>, k: nat)
    requires k < |steps|
    requires forall i :: 0 <= i < k ==> StepError(student, o, env, steps[i]).None?
    requires StepError(student, o, env, steps[k]).Some?
    ensures Executed(student, o, env, steps) == (steps[..k + 1], StepError(student, o, env, steps[k]))
    decreases k
  {
    if k > 0 {
      assert StepError(student, o, env, steps[0]).None?;
      assert forall i :: 0 <= i < |steps| - 1 ==> steps[1..][i] == steps[i + 1];
      ExecutedStopsAt(student, o, env, steps[1..], k - 1);
      assert [steps[0]] + steps[1..][..k] == steps[..k + 1];
    } else {
      assert steps[..1] == [steps[0]];
    }
  }

  /** Resetting is the last call of the plan, made only when a date was
      checked out. */
  lemma ResetLast(o: Options)
    ensures var plan := Plan(o);
            && (forall i :: 0 <= i < |plan| - 1 ==> plan[i] != Reset)
            && (plan[|plan| - 1] == Reset <==> o.date != "")
  {
    var plan := Plan(o);
    var body := [Record, Analyze(!o.noBranchCheck, o.ci)] + (if o.date == "" then [] else [Reset]);
    var front := OuterPlan(o) + (if o.ci then [] else [Stash(o.noRepoUpdate), Pull(o.noRepoUpdate), CheckoutDate(o.date)]);
    assert plan == front + body;
    assert forall i :: 0 <= i < |front| ==> front[i] != Reset;
  }

  /** The repository is reset exactly when a date was checked out and every
      earlier call succeeded. */
  lemma ResetOnlyAfterSuccess(student: string, o: Options, env: StudentEnv)
    ensures var plan := Plan(o);
            Reset in ProcessStudent(student, o, env).calls
            <==> o.date != "" && forall i :: 0 <= i < |plan| - 1 ==> StepError(student, o, env, plan[i]).None?
  {
    TraceFollowsPlan(student, o, env);
    ResetLast(o);
    ResetExecuted(student, o, env, Plan(o));
  }

  /** In a plan whose only reset is its last call, the reset is made exactly
      when it is there and every call before it succeeds. */
  lemma ResetExecuted(student: string, o: Options, env: StudentEnv, plan: seq<Call>)
    requires |plan| > 0
    requires forall i :: 0 <= i < |plan| - 1 ==> plan[i] != Reset
    ensures Reset in Executed(student, o, env, plan).0
            <==> plan[|plan| - 1] == Reset && forall i :: 0 <= i < |plan| - 1 ==> StepError(student, o, env, plan[i]).None?
  {
    var ex := Executed(student, o, env, plan);
    ExecutedPrefix(student, o, env, plan);
    var n := |plan|;
    if Reset in ex.0 {
      var i :| 0 <= i < |ex.0| && ex.0[i] == Reset;
      assert plan[i] == Reset;
      assert i == n - 1 && |ex.0| == n;
      if ex.1.Some? {
        assert forall j :: 0 <= j < n - 1 ==> StepError(student, o, env, ex.0[j]).None?;
      }
    }
    if plan[n - 1] == Reset && forall i :: 0 <= i < n - 1 ==> StepError(student, o, env, plan[i]).None? {
      assert ex.0[n - 1] == Reset;
    }
  }

  /** With `debug` off, an error inside the `try` block becomes a result
      holding the student's name and that error, and nothing after the
      failing call is made. */
  lemma TryFailureCollapses(student: string, o: Options, env: StudentEnv, k: nat)
    requires !o.debug
    requires forall i :: 0 <= i < |OuterPlan(o)| ==> StepError(student, o, env, OuterPlan(o)[i]).None?
    requires k < |TryPlan(o)|
    requires forall i :: 0 <= i < k ==> StepError(student, o, env, TryPlan(o)[i]).None?
    requires StepError(student, o, env, TryPlan(o)[k]).Some?
    ensures var run := ProcessStudent(student, o, env);
            && run.outcome == Ok(StudentResult(student, [], StepError(student, o, env, TryPlan(o)[k])))
            && run.calls == OuterPlan(o) + TryPlan(o)[..k + 1]
  {
    var outer, tried := OuterPlan(o), TryPlan(o);
    var err := StepError(student, o, env, tried[k]);
    assert Executed(student, o, env, Plan(o)) == (outer + tried[..k + 1], err) by {
      ExecutedPrefix(student, o, env, outer);
      ExecutedStopsAt(student, o, env, tried, k);
      ExecutedConcat(student, o, env, outer, tried);
    }
    FollowsPlan(student, o, env);
    var calls := outer + tried[..k + 1];
    assert calls[|calls| - 1] == tried[k];
  }

  /** Removing and cloning happen before the `try` block: their errors
      propagate whatever `debug` says, and nothing after them is made. */
  lemma OuterFailurePropagates(student: string, o: Options, env: StudentEnv)
    requires (o.clean && env.remove(student).Err?)
          || ((!o.clean || env.remove(student).Ok?) && !o.ci && env.clone(student, o.stogitUrl).Err?)
    ensures var run := ProcessStudent(student, o, env);
            && run.outcome.Err?
            && run.calls == Executed(student, o, env, OuterPlan(o)).0
            && (run.outcome.error == if o.clean && env.remove(student).Err? then env.remove(student).error
                                     else env.clone(student, o.stogitUrl).error)
  {
    FollowsPlan(student, o, env);
    var outer := OuterPlan(o);
    ExecutedConcat(student, o, env, outer, TryPlan(o));
    ExecutedPrefix(student, o, env, outer);
    assert exists i :: 0 <= i < |outer| && StepError(student, o, env, outer[i]).Some? by {
      if o.clean && env.remove(student).Err? {
        assert outer[0] == Remove;
      } else {
        assert outer[|outer| - 1] == Clone(o.stogitUrl);
      }
    }
  }

  /** The value `record` returns is discarded: two runs whose `record` calls
      differ only in the value returned end alike. */
  lemma RecordValueIgnored(student: string, o: Options, env: StudentEnv, other: StudentEnv)
    requires other == env.(record := other.record)
    requires ErrorOf(other.record(student, o)) == ErrorOf(env.record(student, o))
    ensures ProcessStudent(student, o, other) == ProcessStudent(student, o, env)
  {
    assert other.record(student, o).Err? == env.record(student, o).Err?;
    assert Attempt(student, o, other) == Attempt(student, o, env);
  }
}
