/** Recording a student's assignments (cs251tk/student/record.py).

    The directory checks, the directory changes and `markdownify` are
    parameters. A recording is the dictionary the Markdown renderer reads. */
module StudentRecording {
  import opened Outcomes
  import opened Recordings
  import opened Text
  import opened Markdown

  /** An assignment's spec as `markdownify` receives it; its contents are
      not part of this model. */
  type SpecData

  /** What `record` reaches outside itself: whether a path exists in the
      student's folder, entering a directory (which may raise), and
      `markdownify(assignment, student, spec, basedir)`. */
  datatype RecordEnv = RecordEnv(
    present: string -> bool,
    enter: string -> Result<(), Exception>,
    markdownify: (string, string, SpecData, string) -> Result<Recording, Exception>)

  /** A collaborator call, as it appears in a trace. */
  datatype RecordCall = Enter(dir: string) | Markdownify(assignment: string)

  /** The recording of an assignment the student did not submit. */
  function NoSubmission(assignment: string, student: string): (r: Recording)
    ensures r.spec == assignment && r.student == student
    ensures r.files == [] && r.firstSubmit.None?
    ensures r.warnings == [(NoSubmissionKey, BoolValue(true))]
  {
    Recording(assignment, student, None, [], [(NoSubmissionKey, BoolValue(true))])
  }

  /** The message of the `KeyError` raised for a missing key, `str()` of
      the error: the `repr` of the key. */
  function KeyErrorMessage(key: string): string
  {
    Repr(key)
  }

  /** A key with no quote, backslash or escaped character is shown in single
      quotes; one holding a single quote and no double quote in double quotes. */
  lemma KeyErrorMessageQuotes(key: string)
    ensures (forall i :: 0 <= i < |key| ==> key[i] != '\'' && key[i] != '"' && key[i] != '\\' && !IsLineBreak(key[i]) && key[i] != '\t' && !EscapedAsHex(key[i]))
            ==> KeyErrorMessage(key) == "'" + key + "'"
    ensures '\'' in key && '"' !in key ==> KeyErrorMessage(key)[0] == '"'
  {
    if forall i :: 0 <= i < |key| ==> key[i] != '\'' && key[i] != '"' && key[i] != '\\' && !IsLineBreak(key[i]) && key[i] != '\t' && !EscapedAsHex(key[i]) {
      EscapeBodyPlain(key, '\'');
    }
  }

  /** The message names the missing key exactly: it reads back as the key. */
  lemma KeyErrorMessageNamesKey(key: string)
    ensures var m := KeyErrorMessage(key); 2 <= |m| && Unescape(m[1..|m| - 1]) == key
  {
    ReprRoundTrip(key);
  }

  /** One assignment inside the student's folder: a present one is recorded
      by `markdownify` inside its directory, with its spec (a spec that is not
      known raises `KeyError`); an absent one is a no-submission recording. */
  function RecordOne(assignment: string, student: string, specs: map<string, SpecData>, basedir: string,
                        env: RecordEnv): (r: (Result<Recording, Exception>, seq<RecordCall>))
    ensures !env.present(assignment) ==> r == (Ok(NoSubmission(assignment, student)), [])
    ensures env.present(assignment) && env.enter(assignment).Err? ==> r == (Err(env.enter(assignment).error), [Enter(assignment)])
    ensures env.present(assignment) && env.enter(assignment).Ok? && assignment !in specs
            ==> r == (Err(Exception(KeyErrorMessage(assignment))), [Enter(assignment)])
    ensures env.present(assignment) && env.enter(assignment).Ok? && assignment in specs
            ==> r == (env.markdownify(assignment, student, specs[assignment], basedir), [Enter(assignment), Markdownify(assignment)])
  {
    if !env.present(assignment) then (Ok(NoSubmission(assignment, student)), [])
    else
      var entered := env.enter(assignment);
      if entered.Err? then (Err(entered.error), [Enter(assignment)])
      else if assignment !in specs then (Err(Exception(KeyErrorMessage(assignment))), [Enter(assignment)])
      else (env.markdownify(assignment, student, specs[assignment], basedir), [Enter(assignment), Markdownify(assignment)])
  }

  /** The loop over the requested assignments: one recording per request, in
      order, or the first error raised. */
  function RecordAll(requested: seq<string>, student: string, specs: map<string, SpecData>, basedir: string,
                        env: RecordEnv): (r: (Result<seq<Recording>, Exception>, seq<RecordCall>))
    ensures r.0.Ok? <==> forall i :: 0 <= i < |requested| ==> RecordOne(requested[i], student, specs, basedir, env).0.Ok?
    ensures r.0.Ok? ==> |r.0.value| == |requested|
    ensures r.0.Ok? ==> forall i :: 0 <= i < |requested| ==>
              r.0.value[i] == RecordOne(requested[i], student, specs, basedir, env).0.value
  {
    if requested == [] then (Ok([]), [])
    else
      var first := RecordOne(requested[0], student, specs, basedir, env);
      assert forall i :: 1 <= i < |requested| ==> requested[i] == requested[1..][i - 1];
      if first.0.Err? then (Err(first.0.error), first.1)
      else
        var rest := RecordAll(requested[1..], student, specs, basedir, env);
        if rest.0.Err? then (Err(rest.0.error), first.1 + rest.1)
        else (Ok([first.0.value] + rest.0.value), first.1 + rest.1)
  }

  /** `record`: nothing requested gives no recordings without entering the
      student's folder; otherwise the requests are recorded inside it. */
  function Record(student: string, specs: map<string, SpecData>, requested: seq<string>, basedir: string,
                     env: RecordEnv): (r: (Result<seq<Recording>, Exception>, seq<RecordCall>))
    ensures requested == [] ==> r == (Ok([]), [])
    ensures requested != [] ==> |r.1| > 0 && r.1[0] == Enter(student)
    ensures requested != [] && env.enter(student).Err? ==> r == (Err(env.enter(student).error), [Enter(student)])
    ensures requested != [] && env.enter(student).Ok? ==>
              r.0 == RecordAll(requested, student, specs, basedir, env).0
  {
    if requested == [] then (Ok([]), [])
    else
      var entered := env.enter(student);
      if entered.Err? then (Err(entered.error), [Enter(student)])
      else
        var all := RecordAll(requested, student, specs, basedir, env);
        (all.0, [Enter(student)] + all.1)
  }

  /** There is one recording per request, in order: a request the folder
      does not hold is recorded as not submitted, naming the student, and a
      present one is what `markdownify` returned for it. */
  lemma {:induction false} RecordingsFollowRequests(student: string, specs: map<string, SpecData>, requested: seq<string>,
                                                       basedir: string, env: RecordEnv)
    requires Record(student, specs, requested, basedir, env).0.Ok?
    ensures var rs := Record(student, specs, requested, basedir, env).0.value;
            && |rs| == |requested|
            && (forall i :: 0 <= i < |rs| && !env.present(requested[i]) ==>
                  rs[i] == NoSubmission(requested[i], student) && rs[i].student == student)
            && (forall i :: 0 <= i < |rs| && env.present(requested[i]) ==>
                  requested[i] in specs && rs[i] == env.markdownify(requested[i], student, specs[requested[i]], basedir).value)
  {
    if requested != [] {
      var rs := Record(student, specs, requested, basedir, env).0.value;
      forall i | 0 <= i < |rs|
        ensures rs[i] == RecordOne(requested[i], student, specs, basedir, env).0.value
        ensures RecordOne(requested[i], student, specs, basedir, env).0.Ok?
      {
      }
    }
  }

  /** A missing assignment's recording renders to the title and the
      no-submission note, followed by the empty files section. */
  lemma {:induction false} NoSubmissionReport(assignment: string, student: string, debug: bool, traceback: RenderError -> string)
    ensures FormatAssignmentMarkdown(NoSubmission(assignment, student), debug, traceback)
         == Ok(Report(assignment, Title(assignment, student) + "\n" + NoSubmissionText + "\n\n\n\n\n", student, "md"))
  {
    var rec := NoSubmission(assignment, student);
    assert FormatWarning(NoSubmissionKey, BoolValue(true)) == Ok(NoSubmissionText);
    assert rec.warnings[1..] == [];
    assert FormatWarnings(rec.warnings) == Ok([NoSubmissionText] + []);
    assert FormatFilesList(rec.files) == Ok("\n\n");
    assert Join("\n", [NoSubmissionText]) == NoSubmissionText;
    var header := FormatHeader(rec, [NoSubmissionText]);
    assert header == Title(assignment, student) + "\n" + NoSubmissionText + "\n";
    var t := Title(assignment, student) + "\n" + NoSubmissionText;
    assert header + "\n\n" + "\n\n" == t + "\n\n\n\n\n";
    assert RenderContent(rec).value == t + "\n\n\n\n\n";
  }
}
