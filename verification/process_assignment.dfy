/** Grading one assignment in a student's folder
    (stograde/process_assignment/process_assignment.py).

    The collaborators the code calls (`check_dates`, `import_supporting`,
    `process_file`, `remove_supporting`) are parameters that return a value
    or raise. Removing compiled binaries works on the set of `.exec` files
    present in the folder. A run reports the outcome, the collaborator calls
    made in order, and the `.exec` files left afterwards. */
module AssignmentProcessing {
  import opened Outcomes
  import opened FileResults

  /** One file an assignment asks for. */
  datatype FileSpec = FileSpec(fileName: string)

  /** An assignment: its identifier and the files it asks for, in order. */
  datatype Spec = Spec(id: string, files: seq<FileSpec>)

  /** Warnings attached to a result; only `recording_err` is part of this model. */
  datatype SubmissionWarnings = SubmissionWarnings(recordingErr: Option<string>)

  /** The result of grading one assignment. */
  datatype RecordResult = RecordResult(
    specId: string,
    firstSubmission: string,
    fileResults: seq<FileResult>,
    warnings: SubmissionWarnings)

  /** The functions the grading calls: `checkDates(spec, cwd)` gives the
      first submission date, `importSupporting(spec, basedir)` the supporting
      directory and the files it wrote, `processFile(fileSpec, cwd,
      supportingDir, interact, skipWebCompile)` one file's result. */
  datatype Collaborators = Collaborators(
    checkDates: (Spec, string) -> Result<string, Exception>,
    importSupporting: (Spec, string) -> Result<(string, seq<string>), Exception>,
    processFile: (FileSpec, string, string, bool, bool) -> Result<FileResult, Exception>,
    removeSupporting: seq<string> -> Result<(), Exception>)

  /** A collaborator call, as it appears in a run's trace. */
  datatype Call =
    | CheckDates
    | ImportSupporting
    | ProcessFile(file: FileSpec)
    | RemoveExec(path: string)  // a removal that completed; the one that raises leaves no entry
    | RemoveSupporting(written: seq<string>)

  /** What a run leaves behind. */
  datatype Run = Run(outcome: Result<RecordResult, Exception>, calls: seq<Call>, execs: set<string>)

  // ---------------------------------------------------------------------
  // remove_execs
  // ---------------------------------------------------------------------

  /** The compiled binary of a file. */
  function ExecName(f: FileSpec): string
  {
    f.fileName + ".exec"
  }

  /** What removing binaries may do: remove, one after another, the binaries
      of a prefix of `files`, each present when removed, and stop only at the
      end of the list or at a binary no longer there. */
  ghost predicate ExecRemoval(files: seq<FileSpec>, present: set<string>, removed: seq<string>, left: set<string>)
  {
    && |removed| <= |files|
    && (forall i :: 0 <= i < |removed| ==> removed[i] == ExecName(files[i]))
    && (forall i :: 0 <= i < |removed| ==> removed[i] in present)
    && (forall i, j :: 0 <= i < j < |removed| ==> removed[i] != removed[j])
    && (forall x :: x in left <==> x in present && x !in removed)
    && (|removed| < |files| ==> ExecName(files[|removed|]) !in left)
  }

  /** `remove_execs`: removes `{name}.exec` for each file in order; the first
      one missing raises `FileNotFoundError`, which ends the loop silently.
      Gives the binaries removed, in order, and those left. */
  function RemoveExecs(files: seq<FileSpec>, present: set<string>): (r: (seq<string>, set<string>))
    ensures |r.0| <= |files|
    ensures r.1 <= present
  {
    if files == [] || ExecName(files[0]) !in present then ([], present)
    else
      var name := ExecName(files[0]);
      var rest := RemoveExecs(files[1..], present - {name});
      ([name] + rest.0, rest.1)
  }

  /** `remove_execs` removes present binaries of a prefix of the files, in
      order, and stops only at the end or at the first binary missing. */
  lemma {:induction false} RemoveExecsSound(files: seq<FileSpec>, present: set<string>)
    ensures ExecRemoval(files, present, RemoveExecs(files, present).0, RemoveExecs(files, present).1)
    decreases |files|
  {
    if files != [] && ExecName(files[0]) in present {
      var present' := present - {ExecName(files[0])};
      var rest := RemoveExecs(files[1..], present');
      RemoveExecsSound(files[1..], present');
      ExecRemovalCons(files, present, rest.0, rest.1);
    }
  }

  /** Removing the first file's binary, then a removal that fits the rest,
      fits `ExecRemoval` for all the files. */
  lemma ExecRemovalCons(files: seq<FileSpec>, present: set<string>, rest: seq<string>, left: set<string>)
    requires files != [] && ExecName(files[0]) in present
    requires ExecRemoval(files[1..], present - {ExecName(files[0])}, rest, left)
    ensures ExecRemoval(files, present, [ExecName(files[0])] + rest, left)
  {
    var name := ExecName(files[0]);
    var removed := [name] + rest;
    assert forall i :: 1 <= i < |removed| ==> removed[i] == rest[i - 1];
    assert forall i :: 1 <= i < |files| ==> files[i] == files[1..][i - 1];
    assert forall i :: 0 <= i < |rest| ==> rest[i] != name;
  }

  /** Any removal that fits `ExecRemoval` is the one `remove_execs` performs. */
  lemma {:induction false} RemoveExecsComplete(files: seq<FileSpec>, present: set<string>, removed: seq<string>, left: set<string>)
    requires ExecRemoval(files, present, removed, left)
    ensures RemoveExecs(files, present) == (removed, left)
    decreases |files|
  {
    if removed == [] {
      assert left == present;
    } else {
      var name := ExecName(files[0]);
      ExecRemovalTail(files, present, removed, left);
      RemoveExecsComplete(files[1..], present - {name}, removed[1..], left);
      assert removed == [name] + removed[1..];
    }
  }

  /** After the first removal, the rest of a removal fits `ExecRemoval` for
      the rest of the files and the binaries still there. */
  lemma ExecRemovalTail(files: seq<FileSpec>, present: set<string>, removed: seq<string>, left: set<string>)
    requires ExecRemoval(files, present, removed, left)
    requires removed != []
    ensures files != [] && removed[0] == ExecName(files[0]) && removed[0] in present
    ensures ExecRemoval(files[1..], present - {removed[0]}, removed[1..], left)
  {
    var name := removed[0];
    var rest := removed[1..];
    assert forall i :: 0 <= i < |rest| ==> rest[i] == removed[i + 1] && rest[i] != name;
    assert forall i :: 0 <= i < |files[1..]| ==> files[1..][i] == files[i + 1];
    assert forall x :: x in left <==> x in present - {name} && x !in rest;
    assert |rest| < |files[1..]| ==> files[1..][|rest|] == files[|removed|];
  }

  /** `ExecRemoval` describes exactly what `remove_execs` does. */
  lemma ExecRemovalUnique(files: seq<FileSpec>, present: set<string>, removed: seq<string>, left: set<string>)
    ensures ExecRemoval(files, present, removed, left) <==> RemoveExecs(files, present) == (removed, left)
  {
    RemoveExecsSound(files, present);
    if ExecRemoval(files, present, removed, left) {
      RemoveExecsComplete(files, present, removed, left);
    }
  }

  /** When every binary is present and the names are distinct, all of them are removed. */
  lemma {:induction false} RemoveExecsAll(files: seq<FileSpec>, present: set<string>)
    requires forall i :: 0 <= i < |files| ==> ExecName(files[i]) in present
    requires forall i, j :: 0 <= i < j < |files| ==> ExecName(files[i]) != ExecName(files[j])
    ensures |RemoveExecs(files, present).0| == |files|
    decreases |files|
  {
    if files != [] {
      var name := ExecName(files[0]);
      assert forall i :: 0 <= i < |files[1..]| ==> files[1..][i] == files[i + 1];
      RemoveExecsAll(files[1..], present - {name});
    }
  }

  // ---------------------------------------------------------------------
  // process_assignment
  // ---------------------------------------------------------------------

  /** The trace of processing `files` one after another. */
  function FileCalls(files: seq<FileSpec>): (calls: seq<Call>)
    ensures |calls| == |files|
    ensures forall i :: 0 <= i < |files| ==> calls[i] == ProcessFile(files[i])
  {
    seq(|files|, i requires 0 <= i < |files| => ProcessFile(files[i]))
  }

  /** The trace of removing the binaries `removed`. */
  function ExecCalls(removed: seq<string>): (calls: seq<Call>)
    ensures |calls| == |removed|
    ensures forall i :: 0 <= i < |removed| ==> calls[i] == RemoveExec(removed[i])
  {
    seq(|removed|, i requires 0 <= i < |removed| => RemoveExec(removed[i]))
  }

  /** Whether `processFile` succeeds on the file. */
  predicate FileProcessed(env: Collaborators, f: FileSpec, cwd: string, supportingDir: string, interact: bool, skipWebCompile: bool)
  {
    env.processFile(f, cwd, supportingDir, interact, skipWebCompile).Ok?
  }

  /** The loop over the assignment's files: one result per file, in order;
      the first failing file raises and the files after it are not processed. */
  function ProcessFiles(files: seq<FileSpec>, cwd: string, supportingDir: string, interact: bool, skipWebCompile: bool,
                        env: Collaborators): (r: (Result<seq<FileResult>, Exception>, seq<Call>))
    ensures r.0.Ok? <==> forall i :: 0 <= i < |files| ==> FileProcessed(env, files[i], cwd, supportingDir, interact, skipWebCompile)
    ensures 0 < |r.1| <= |files| || (files == [] && r.1 == [])
    ensures r.1 == FileCalls(files[..|r.1|])
    ensures r.0.Ok? ==> |r.0.value| == |files| && |r.1| == |files|
  {
    if files == [] then (Ok([]), [])
    else
      var first := env.processFile(files[0], cwd, supportingDir, interact, skipWebCompile);
      if first.Err? then
        (Err(first.error), [ProcessFile(files[0])])
      else
        var rest := ProcessFiles(files[1..], cwd, supportingDir, interact, skipWebCompile, env);
        var calls := [ProcessFile(files[0])] + rest.1;
        assert forall i :: 1 <= i < |files| ==> files[i] == files[1..][i - 1];
        assert calls == FileCalls(files[..|calls|]) by {
          assert forall i :: 1 <= i < |calls| ==> calls[i] == rest.1[i - 1];
        }
        if rest.0.Err? then (Err(rest.0.error), calls)
        else (Ok([first.value] + rest.0.value), calls)
  }

  /** When every file is processed, the results are the files' results in
      declaration order. */
  lemma {:induction false} ProcessFilesResults(files: seq<FileSpec>, cwd: string, supportingDir: string, interact: bool,
                                               skipWebCompile: bool, env: Collaborators)
    requires forall i :: 0 <= i < |files| ==> FileProcessed(env, files[i], cwd, supportingDir, interact, skipWebCompile)
    ensures var r := ProcessFiles(files, cwd, supportingDir, interact, skipWebCompile, env).0;
            forall i :: 0 <= i < |files| ==> r.value[i] == env.processFile(files[i], cwd, supportingDir, interact, skipWebCompile).value
    decreases |files|
  {
    if files != [] {
      assert forall i :: 1 <= i < |files| ==> files[i] == files[1..][i - 1];
      ProcessFilesResults(files[1..], cwd, supportingDir, interact, skipWebCompile, env);
    }
  }

  /** A failing file ends the loop: the files before it were processed, and
      its error is the loop's error. */
  lemma {:induction false} ProcessFilesFailure(files: seq<FileSpec>, cwd: string, supportingDir: string, interact: bool,
                                               skipWebCompile: bool, env: Collaborators)
    requires ProcessFiles(files, cwd, supportingDir, interact, skipWebCompile, env).0.Err?
    ensures var r := ProcessFiles(files, cwd, supportingDir, interact, skipWebCompile, env);
            var k := |r.1| - 1;
            && (forall i :: 0 <= i < k ==> FileProcessed(env, files[i], cwd, supportingDir, interact, skipWebCompile))
            && env.processFile(files[k], cwd, supportingDir, interact, skipWebCompile) == Err(r.0.error)
    decreases |files|
  {
    var first := env.processFile(files[0], cwd, supportingDir, interact, skipWebCompile);
    if first.Ok? {
      assert forall i :: 1 <= i < |files| ==> files[i] == files[1..][i - 1];
      ProcessFilesFailure(files[1..], cwd, supportingDir, interact, skipWebCompile, env);
    }
  }

  /** The message of the first submission line. */
  function FirstSubmissionLine(id: string, date: string): string
  {
    "First Submission for " + id + ": " + date
  }

  /** The result a failed grading collapses to: the assignment and the error's message only. */
  function Collapsed(id: string, err: Exception): (r: RecordResult)
    ensures r.specId == id && r.fileResults == [] && r.firstSubmission == ""
    ensures r.warnings.recordingErr == Some(err.message)
  {
    RecordResult(id, "", [], SubmissionWarnings(Some(err.message)))
  }

  /** Whether everything before `remove_supporting` succeeds: the date check
      (outside CI), importing supporting files and processing every file. */
  predicate Prepared(spec: Spec, basedir: string, cwd: string, interact: bool, ci: bool, skipWebCompile: bool, env: Collaborators)
  {
    && (ci || env.checkDates(spec, cwd).Ok?)
    && env.importSupporting(spec, basedir).Ok?
    && var supportingDir := env.importSupporting(spec, basedir).value.0;
       forall i :: 0 <= i < |spec.files| ==> FileProcessed(env, spec.files[i], cwd, supportingDir, interact, skipWebCompile)
  }

  /** Whether a trace holds no `remove_supporting` call. */
  predicate NoCleanup(calls: seq<Call>)
  {
    forall i :: 0 <= i < |calls| ==> !calls[i].RemoveSupporting?
  }

  /** The body of the `try` block: its outcome, calls and remaining binaries. */
  function Attempt(spec: Spec, basedir: string, cwd: string, interact: bool, ci: bool, skipWebCompile: bool,
                   env: Collaborators, execs: set<string>): (run: Run)
    ensures run.outcome.Ok? ==> run.outcome.value.specId == spec.id && run.outcome.value.warnings.recordingErr.None?
  {
    var dates := if ci then Ok("") else env.checkDates(spec, cwd);
    var calls0 := if ci then [] else [CheckDates];
    if dates.Err? then Run(Err(dates.error), calls0, execs)
    else
      var firstSubmit := if ci then "" else FirstSubmissionLine(spec.id, dates.value);
      var imported := env.importSupporting(spec, basedir);
      var calls1 := calls0 + [ImportSupporting];
      if imported.Err? then Run(Err(imported.error), calls1, execs)
      else
        var (supportingDir, written) := imported.value;
        var processed := ProcessFiles(spec.files, cwd, supportingDir, interact, skipWebCompile, env);
        var calls2 := calls1 + processed.1;
        if processed.0.Err? then Run(Err(processed.0.error), calls2, execs)
        else
          var (removed, left) := RemoveExecs(spec.files, execs);
          var calls3 := calls2 + ExecCalls(removed) + [RemoveSupporting(written)];
          var cleaned := env.removeSupporting(written);
          if cleaned.Err? then Run(Err(cleaned.error), calls3, left)
          else Run(Ok(RecordResult(spec.id, firstSubmit, processed.0.value, SubmissionWarnings(None))), calls3, left)
  }

  /** `process_assignment`. `cwd` is the working directory the code reads
      with `os.getcwd()`, `execs` the binaries present in it. With `debug`
      off an error never escapes: the result collapses to the assignment id
      and the error's message; with `debug` on it propagates unchanged. */
  function ProcessAssignment(spec: Spec, basedir: string, cwd: string, debug: bool, interact: bool, ci: bool,
                             skipWebCompile: bool, env: Collaborators, execs: set<string>): (run: Run)
    ensures var attempt := Attempt(spec, basedir, cwd, interact, ci, skipWebCompile, env, execs);
            && run.calls == attempt.calls && run.execs == attempt.execs
            && (run.outcome.Ok? ==> run.outcome.value.specId == spec.id)
            && (run.outcome.Err? <==> debug && attempt.outcome.Err?)
            && (run.outcome.Err? ==> run.outcome == attempt.outcome)
            && (!debug && attempt.outcome.Err? ==> run.outcome == Ok(Collapsed(spec.id, attempt.outcome.error)))
  {
    var attempt := Attempt(spec, basedir, cwd, interact, ci, skipWebCompile, env, execs);
    match attempt.outcome
    case Ok(_) => attempt
    case Err(err) =>
      if debug then attempt
      else Run(Ok(Collapsed(spec.id, err)), attempt.calls, attempt.execs)
  }

  /** In CI mode dates are not checked and the first submission line is
      empty; otherwise the date check is the first call. */
  lemma CiSkipsDateCheck(spec: Spec, basedir: string, cwd: string, debug: bool, interact: bool, ci: bool,
                         skipWebCompile: bool, env: Collaborators, execs: set<string>)
    ensures var run := ProcessAssignment(spec, basedir, cwd, debug, interact, ci, skipWebCompile, env, execs);
            && (ci ==> CheckDates !in run.calls)
            && (ci && run.outcome.Ok? ==> run.outcome.value.firstSubmission == "")
            && (!ci ==> |run.calls| > 0 && run.calls[0] == CheckDates)
  {
    var run := ProcessAssignment(spec, basedir, cwd, debug, interact, ci, skipWebCompile, env, execs);
    if ci && env.importSupporting(spec, basedir).Ok? {
      var supportingDir := env.importSupporting(spec, basedir).value.0;
      var processed := ProcessFiles(spec.files, cwd, supportingDir, interact, skipWebCompile, env);
      var fileCalls := FileCalls(spec.files[..|processed.1|]);
      assert CheckDates !in fileCalls;
      if processed.0.Ok? {
        var removed := RemoveExecs(spec.files, execs).0;
        assert CheckDates !in ExecCalls(removed);
      }
    }
  }

  /** Supporting files are removed only when everything before succeeded:
      on every failure path the trace holds no `remove_supporting` call. */
  lemma SupportingRemovedOnlyWhenPrepared(spec: Spec, basedir: string, cwd: string, debug: bool, interact: bool, ci: bool,
                                          skipWebCompile: bool, env: Collaborators, execs: set<string>)
    ensures var run := ProcessAssignment(spec, basedir, cwd, debug, interact, ci, skipWebCompile, env, execs);
            && (Prepared(spec, basedir, cwd, interact, ci, skipWebCompile, env) ==>
                  run.calls[|run.calls| - 1] == RemoveSupporting(env.importSupporting(spec, basedir).value.1))
            && (!Prepared(spec, basedir, cwd, interact, ci, skipWebCompile, env) ==> NoCleanup(run.calls) && run.execs == execs)
  {
    AttemptCleanup(spec, basedir, cwd, interact, ci, skipWebCompile, env, execs);
  }

  /** `SupportingRemovedOnlyWhenPrepared` for the body of the `try` block. */
  lemma AttemptCleanup(spec: Spec, basedir: string, cwd: string, interact: bool, ci: bool,
                       skipWebCompile: bool, env: Collaborators, execs: set<string>)
    ensures var run := Attempt(spec, basedir, cwd, interact, ci, skipWebCompile, env, execs);
            && (Prepared(spec, basedir, cwd, interact, ci, skipWebCompile, env) ==>
                  run.calls[|run.calls| - 1] == RemoveSupporting(env.importSupporting(spec, basedir).value.1))
            && (!Prepared(spec, basedir, cwd, interact, ci, skipWebCompile, env) ==> NoCleanup(run.calls) && run.execs == execs)
  {
    var calls0 := if ci then [] else [CheckDates];
    assert NoCleanup(calls0);
    var imported := env.importSupporting(spec, basedir);
    if (ci || env.checkDates(spec, cwd).Ok?) && imported.Ok? {
      var supportingDir := imported.value.0;
      var processed := ProcessFiles(spec.files, cwd, supportingDir, interact, skipWebCompile, env);
      if processed.0.Err? {
        assert !Prepared(spec, basedir, cwd, interact, ci, skipWebCompile, env);
        assert NoCleanup(calls0 + [ImportSupporting] + processed.1) by {
          assert NoCleanup(FileCalls(spec.files[..|processed.1|]));
        }
      } else {
        assert Prepared(spec, basedir, cwd, interact, ci, skipWebCompile, env);
      }
    } else {
      assert !Prepared(spec, basedir, cwd, interact, ci, skipWebCompile, env);
    }
  }

  /** A successful grading: the first submission line (outside CI) and one
      result per declared file, in declaration order; the binaries removed
      are those `ExecRemoval` describes. */
  lemma SuccessfulGrading(spec: Spec, basedir: string, cwd: string, debug: bool, interact: bool, ci: bool,
                          skipWebCompile: bool, env: Collaborators, execs: set<string>)
    requires Prepared(spec, basedir, cwd, interact, ci, skipWebCompile, env)
    requires env.removeSupporting(env.importSupporting(spec, basedir).value.1).Ok?
    ensures var run := ProcessAssignment(spec, basedir, cwd, debug, interact, ci, skipWebCompile, env, execs);
            var supportingDir := env.importSupporting(spec, basedir).value.0;
            && run.outcome.Ok?
            && run.outcome.value.warnings.recordingErr.None?
            && run.outcome.value.firstSubmission
               == (if ci then "" else FirstSubmissionLine(spec.id, env.checkDates(spec, cwd).value))
            && |run.outcome.value.fileResults| == |spec.files|
            && (forall i :: 0 <= i < |spec.files| ==>
                  run.outcome.value.fileResults[i]
                  == env.processFile(spec.files[i], cwd, supportingDir, interact, skipWebCompile).value)
            && ExecRemoval(spec.files, execs, RemoveExecs(spec.files, execs).0, run.execs)
  {
    var supportingDir := env.importSupporting(spec, basedir).value.0;
    ProcessFilesResults(spec.files, cwd, supportingDir, interact, skipWebCompile, env);
    RemoveExecsSound(spec.files, execs);
  }

  /** A file that fails stops the grading: no later file is processed, no
      binary or supporting file is removed, and with `debug` off the result
      carries that file's error message. */
  lemma FileFailureCollapses(spec: Spec, basedir: string, cwd: string, interact: bool, ci: bool,
                             skipWebCompile: bool, env: Collaborators, execs: set<string>, k: nat)
    requires ci || env.checkDates(spec, cwd).Ok?
    requires env.importSupporting(spec, basedir).Ok?
    requires k < |spec.files|
    requires var supportingDir := env.importSupporting(spec, basedir).value.0;
             && (forall i :: 0 <= i < k ==> FileProcessed(env, spec.files[i], cwd, supportingDir, interact, skipWebCompile))
             && !FileProcessed(env, spec.files[k], cwd, supportingDir, interact, skipWebCompile)
    ensures var run := ProcessAssignment(spec, basedir, cwd, false, interact, ci, skipWebCompile, env, execs);
            var supportingDir := env.importSupporting(spec, basedir).value.0;
            var err := env.processFile(spec.files[k], cwd, supportingDir, interact, skipWebCompile).error;
            && run.outcome == Ok(Collapsed(spec.id, err))
            && run.execs == execs
            && run.calls == (if ci then [] else [CheckDates]) + [ImportSupporting] + FileCalls(spec.files[..k + 1])
  {
    var supportingDir := env.importSupporting(spec, basedir).value.0;
    var processed := ProcessFiles(spec.files, cwd, supportingDir, interact, skipWebCompile, env);
    assert processed.0.Err?;
    ProcessFilesFailure(spec.files, cwd, supportingDir, interact, skipWebCompile, env);
    var j := |processed.1| - 1;
    assert j == k by {
      assert !FileProcessed(env, spec.files[j], cwd, supportingDir, interact, skipWebCompile);
    }
  }
}
