# stograde grading core in Dafny

A functional model of the grading core of stograde, the tool that checks out
each student's repository, grades the assignments in it, and renders a
Markdown report per assignment. The model covers five parts:

- the Markdown report renderer (`format_assignment_markdown` and its helpers);
- grading one assignment (`process_assignment`, `remove_execs`);
- the per-student recording loop (`record` of `cs251tk/student/record.py`, which `process_student` does not call);
- processing one student (`process_student`);
- the per-file result record (`FileResult`).

Python's behaviour is written out explicitly. That covers `str.rstrip`,
`str.strip`, `str.isspace`, `str.splitlines`, `'\n'.join`, `textwrap.indent`,
`split('.')[-1]` and truthiness.

Each exception the code can raise is an `Err` outcome. The renderer's input is
the recording dictionary:

- a key read with `d[key]` is an `Option` field, and its absence is a `KeyError`;
- a key read with `d.get(key, default)` is a plain field, whose default value
  stands for an absent key;
- a dictionary is a sequence of pairs in iteration order.

The orchestration parts call collaborators whose source is outside the core.
These are function-valued parameters that return a value or raise. Each run
returns its outcome and the trace of the calls it made, in order.

The files are:

| file | module | contents |
|---|---|---|
| `outcomes.dfy` | `Outcomes` | `Option`, `Result`, `Exception`, and loops over a list that stop at the first error |
| `text.dfy` | `Text` | the Python string operations and their laws |
| `recordings.dfy` | `Recordings` | the recording dictionary the renderer reads |
| `markdown.dfy` | `Markdown` | the renderer |
| `file_result.dfy` | `FileResults` | `FileResult` and its defaults |
| `process_assignment.dfy` | `AssignmentProcessing` | `process_assignment`, `remove_execs` |
| `record.dfy` | `StudentRecording` | `record` |
| `process_student.dfy` | `StudentProcessing` | `process_student` |

The model follows the code, including these behaviours:

- Supporting files are removed only when grading succeeds. An error before
  `remove_supporting` skips it, so the release is not unconditional.
- A "no submission" recording does not cut rendering short. The recording has
  no `files` key, so the report is still followed by the empty files section
  and the closing blank lines (`StudentRecording.NoSubmissionReport`).
- In `process_student`, removing and cloning happen before the `try` block.
  Their errors propagate even with `debug` off.
- `process_student` discards the value `record` returns. The student's result
  holds only what `analyze` attaches to it.
- An optional missing file keeps its last-modification time in the heading,
  and the optional mark is appended after it rather than replacing it
  (`Markdown.OptionalMissingHeading`).

## Model

| member | source | states |
|---|---|---|
| Text.RStripEmptyIffBlank | stograde/formatters/markdown.py:109 | right-stripping leaves nothing exactly when every character is whitespace |
| Text.Extension | stograde/formatters/markdown.py:111 | the fence type is the text after the last `.`, or the whole name when it has none; it contains no `.` and ends the name |
| Text.Indent | stograde/formatters/markdown.py:22 | `textwrap.indent` never shortens the text, leaves a whitespace-only text (or an empty prefix) unchanged, and adds at least one prefix to any text with a visible character; its line-by-line meaning is `Text.IndentConcat` and `Text.IndentSingleLine` |
| Text.IndentConcat | stograde/formatters/markdown.py:92 | indenting a text that ends in a newline and then more text is indenting each part on its own: `textwrap.indent` works line by line |
| Text.IndentSingleLine | stograde/formatters/markdown.py:92 | a single visible line, with or without its trailing newline, gets exactly one prefix |
| Text.IndentJoinedLines | stograde/formatters/markdown.py:92 | indenting names joined by newlines prefixes every name with the indent, when no name is blank or holds a line break |
| Markdown.FormatFileContents | stograde/formatters/markdown.py:103-111 | the result is `*File empty*` exactly when the contents are empty or whitespace only; otherwise it is a code block ending in a closing fence |
| Markdown.ContentsRoundTrip | stograde/formatters/markdown.py:109-111 | when the file's extension holds no newline, a non-blank file's block unfences back to its extension and its unchanged contents; a blank file gives no block |
| Markdown.CompileEntryPieces | stograde/formatters/markdown.py:119-126 | an entry renders exactly when `command` and `output` are present (`output` is looked up first); it gives one piece or two |
| Markdown.CompilationPieces | stograde/formatters/markdown.py:117-126 | every entry renders or the first incomplete entry's `KeyError` is raised; no entries give no pieces |
| Markdown.FormatFileCompilation | stograde/formatters/markdown.py:114-128 | the compile section renders exactly when every entry is complete; an empty list renders as the empty text |
| Markdown.CompilationSingle | stograde/formatters/markdown.py:119-126 | empty output gives the one "no warnings" line; other output gives the "warnings" line, a blank line and the fenced output |
| Markdown.CompilationConcat | stograde/formatters/markdown.py:117-128 | the sections of two entry lists, one after the other, are joined by one newline, keeping input order |
| Markdown.TestBlockShape | stograde/formatters/markdown.py:136-139 | a test block starts with the header; it ends with the truncation note exactly when the run was truncated, and otherwise with the fenced output |
| Markdown.TestBlock | stograde/formatters/markdown.py:135-139 | a test block renders exactly when all its keys are present; the note appears only when `truncated` is true |
| Markdown.FormatFileResults | stograde/formatters/markdown.py:131-141 | the test section renders exactly when every run is complete; no runs give the empty text |
| Markdown.ResultsConcat | stograde/formatters/markdown.py:134-141 | the test section of two run lists is the two sections concatenated in input order |
| Markdown.ResultsSingle | stograde/formatters/markdown.py:135-139 | the test section of one run is that run's block |
| Markdown.Iterate | stograde/formatters/markdown.py:60 | `for b in value` yields a list's items unchanged, a string's characters one by one, and raises `TypeError` for a bool |
| Markdown.FormatWarning | stograde/formatters/markdown.py:55-67 | "no submission" always gives the no-submission line; other keys give the empty text exactly when the value is falsy; a truthy message gives the `**Warning: …**` line |
| Markdown.UnmergedBranchLines | stograde/formatters/markdown.py:59-61 | for a non-empty list of branch names none of which holds a newline, the unmerged-branches text is its heading line followed by one `  - b` line per branch, in order |
| Markdown.FormatWarnings | stograde/formatters/markdown.py:36-38 | the warnings render exactly when each one does, and no empty text is kept |
| Markdown.WarningsShown | stograde/formatters/markdown.py:36-38 | the kept texts are exactly the shown warnings formatted, one each, in their original order |
| Markdown.FormatHeader | stograde/formatters/markdown.py:41-52 | the header is the title plus the first-submission line when present, followed by the warnings after a blank line exactly when there are warnings |
| Markdown.FormatFile | stograde/formatters/markdown.py:70-100 | a file section renders exactly when its compile and test entries are complete and `missing` (and, for a missing file, `optional`) is present; compile errors come first |
| Markdown.PresentFileLayout | stograde/formatters/markdown.py:79-100 | a present file's section is the heading, contents, compile and test sections, one after another |
| Markdown.MissingSection | stograde/formatters/markdown.py:90-98 | a missing file's section needs `optional`; it is the heading, the not-found note and the indented listing |
| Markdown.MissingFileIgnoresSections | stograde/formatters/markdown.py:90-98 | a missing file's section does not depend on its contents, compile output or test output |
| Markdown.MissingFileLayout | stograde/formatters/markdown.py:90-98 | when no other file's name is blank or holds a line break, a missing required file shows the heading, the note, and one four-space-indented line per other file |
| Markdown.OptionalMissingHeading | stograde/formatters/markdown.py:83-96 | a missing optional file's heading keeps the last-modified parenthetical and ends with the optional mark |
| Markdown.FormatFiles | stograde/formatters/markdown.py:33 | there is one section per file, in order, exactly when each file renders |
| Markdown.FormatFilesList | stograde/formatters/markdown.py:32-33 | the files part is a blank line followed by the sections separated by blank lines; no files give just the blank line |
| Markdown.RenderContent | stograde/formatters/markdown.py:14-17 | the report renders exactly when the files and warnings do; it starts with the title and ends with a blank line |
| Markdown.ContentLayout | stograde/formatters/markdown.py:14-17 | the report is the header, a blank line, the file sections separated by blank lines, and a closing blank line |
| Markdown.FormatAssignmentMarkdown | stograde/formatters/markdown.py:5-29 | an error escapes only with debug on; otherwise the report echoes spec and student with type `md`, holding the content or the diagnostic indented by four spaces |
| FileResults.NewFileResult | stograde/process_file/File_Result.py:8-18 | a new result keeps its name, with empty lists, false flags and empty texts everywhere else |
| FileResults.DefaultsDetermined | stograde/process_file/File_Result.py:10-18 | a result holds only defaults exactly when it is the default result for its name |
| AssignmentProcessing.RemoveExecs | stograde/process_assignment/process_assignment.py:60-65 | no more binaries are removed than there are files, and the binaries left are among those present |
| AssignmentProcessing.RemoveExecsSound | stograde/process_assignment/process_assignment.py:60-65 | binaries are removed for a prefix of the files, in order, each present; removal stops only at the end or at the first binary missing, which is left untouched |
| AssignmentProcessing.ExecRemovalUnique | stograde/process_assignment/process_assignment.py:60-65 | that description fits exactly one removal, the one `remove_execs` performs |
| AssignmentProcessing.RemoveExecsAll | stograde/process_assignment/process_assignment.py:62-63 | when every binary is present and the names are distinct, every one is removed |
| AssignmentProcessing.ProcessFiles | stograde/process_assignment/process_assignment.py:36-42 | the loop succeeds exactly when every file is processed; it gives one result per file; the files processed are a prefix of the declared files |
| AssignmentProcessing.ProcessFilesResults | stograde/process_assignment/process_assignment.py:36-42 | on success the results are the files' results in declaration order |
| AssignmentProcessing.ProcessFilesFailure | stograde/process_assignment/process_assignment.py:36-42 | a failure is the first failing file's error, and the files before it were processed |
| AssignmentProcessing.Collapsed | stograde/process_assignment/process_assignment.py:56-57 | the collapsed result holds only the spec id and the error's message as `recording_err` |
| AssignmentProcessing.Attempt | stograde/process_assignment/process_assignment.py:24-50 | a successful attempt carries the spec id and no recording error |
| AssignmentProcessing.ProcessAssignment | stograde/process_assignment/process_assignment.py:14-57 | an error escapes exactly when debug is on and the attempt failed, and then unchanged; with debug off a failure collapses to the spec id and the error's message |
| AssignmentProcessing.CiSkipsDateCheck | stograde/process_assignment/process_assignment.py:24-28 | in CI mode dates are never checked and the first-submission line is empty; otherwise the date check is the first call |
| AssignmentProcessing.SupportingRemovedOnlyWhenPrepared | stograde/process_assignment/process_assignment.py:34-50 | when every earlier step succeeds, `remove_supporting` is the last call; otherwise it is never called and no binary is removed |
| AssignmentProcessing.SuccessfulGrading | stograde/process_assignment/process_assignment.py:24-50 | a success carries the first-submission line (empty in CI mode) and one result per declared file, in order; the binaries are removed as `remove_execs` describes |
| AssignmentProcessing.FileFailureCollapses | stograde/process_assignment/process_assignment.py:36-57 | the first failing file stops grading; no later file, binary or supporting file is touched; with debug off the result carries that file's error message |
| StudentRecording.NoSubmission | cs251tk/student/record.py:16-21 | the no-submission recording names the assignment and student, has no files and no first-submit line, and one warning, `no submission` |
| StudentRecording.RecordOne | cs251tk/student/record.py:13-21 | an absent assignment is a no-submission recording; a present one is `markdownify`'s result inside its directory; an unknown spec raises `KeyError` |
| StudentRecording.RecordAll | cs251tk/student/record.py:12-23 | the loop succeeds exactly when every request does, with one recording per request, in request order |
| StudentRecording.Record | cs251tk/student/record.py:6-25 | no requests give no recordings and no directory change; otherwise the student's folder is entered first |
| StudentRecording.RecordingsFollowRequests | cs251tk/student/record.py:12-23 | there is one recording per request, in order; an absent assignment gives the no-submission recording naming the student in its place, and a present one gives what `markdownify` returned for it |
| StudentRecording.KeyErrorMessageQuotes | cs251tk/student/record.py:15 | the `KeyError` for an unknown assignment shows the key in single quotes when it holds no quote, backslash or escaped character, and in double quotes when it holds a single quote and no double quote, as `repr` does |
| StudentRecording.KeyErrorMessageNamesKey | cs251tk/student/record.py:15 | the text between the message's quotes reads back as the missing key |
| Text.ReprRoundTrip | cs251tk/student/record.py:15 | `repr` of a key loses nothing: undoing its escapes gives the key back |
| StudentRecording.NoSubmissionReport | cs251tk/student/record.py:17-21 | a no-submission recording renders to the title, the no-submission line and the empty files section |
| StudentProcessing.NewStudentResult | stograde/toolkit/process_student.py:36 | a new student result holds the name, no annotations and no error |
| StudentProcessing.Attempt | stograde/toolkit/process_student.py:29-45 | a successful `try` block returns the analysed fresh result for the student |
| StudentProcessing.ProcessStudent | stograde/toolkit/process_student.py:24-51 | removal is the first call exactly when `clean` is set; in CI mode no clone, stash, pull or checkout is made |
| StudentProcessing.ExecutedPrefix | stograde/toolkit/process_student.py:24-45 | the calls made are a prefix of the plan; all but the last succeed; the whole plan runs exactly when nothing raises |
| StudentProcessing.FollowsPlan | stograde/toolkit/process_student.py:24-51 | calls follow the plan (remove, clone, stash, pull, checkout, record, analyze, reset) up to the first error; removal and clone errors, or any error with debug on, propagate; others give the name and the error |
| StudentProcessing.TraceFollowsPlan | stograde/toolkit/process_student.py:24-43 | the calls made are the plan up to and including the first call that raises |
| StudentProcessing.ResetOnlyAfterSuccess | stograde/toolkit/process_student.py:42-43 | the repository is reset exactly when a date was given and every earlier call succeeded |
| StudentProcessing.TryFailureCollapses | stograde/toolkit/process_student.py:47-51 | with debug off, an error inside the `try` block gives the student's name and that error, and no later call is made |
| StudentProcessing.OuterFailurePropagates | stograde/toolkit/process_student.py:24-27 | a removal or clone error propagates whatever debug says, and nothing is made after it |
| StudentProcessing.RecordValueIgnored | stograde/toolkit/process_student.py:38-45 | the value `record` returns does not affect the outcome or the calls |

## Left out

- Markdown.FormatAssignmentMarkdown: the text of `traceback.format_exc()` is a parameter, so only its indentation is modelled.
- The recording's `spec` and `student` keys are required fields, so a recording without them, which raises `KeyError`, is not represented.
- Warning values are booleans, strings or lists of strings. Other value types, and `str.format` of non-string statuses and truncation points, are not modelled. The status and truncation point are kept as their printed text.
- `KeyError` messages from the renderer carry the key. For `record`, a missing spec raises an exception whose message is `repr` of the key, as `str()` of a `KeyError` prints it.
- StudentRecording.RecordOne: `repr` is modelled for characters below U+0100 (the choice of quotes, backslash, tab, newline, carriage return and `\xhh` escapes). Characters from U+0100 up that Python considers non-printable, which `repr` writes as `\uhhhh` or `\Uhhhhhhhh`, are kept as they are, because printability depends on the Unicode database.
- The directory changes, `os.getcwd`, `os.remove` and `path.exists` are parameters: `cwd`, the set of `.exec` files present, and the collaborators `present` and `enter`. Errors from `os.remove` other than a missing file are not modelled.
- `check_dates`, `import_supporting`, `process_file`, `remove_supporting`, `markdownify`, `analyze`, clone, stash, pull, checkout and reset are collaborators whose behaviour is a parameter. `cs251tk/student/checkout.py` and the git commands are not part of this model.
- Compile_Result, Test_Result, Record_Result, Submission_Warnings and Student_Result are not part of this model. Compile and test results are abstract types; a record result holds the fields `process_assignment` sets; a student result holds the name, what `analyze` attaches, and the error.
- `analyze` fills in the student result in place; here it returns the filled-in result.
- `process_student`'s `remove` and `record` are parameters of `StudentProcessing` (`StudentEnv.remove`, `StudentEnv.record`), not `StudentRecording.Record`: `process_student` imports `record` from stograde's own `student` package and calls it with keyword arguments, while `cs251tk/student/record.py` has a different signature, and that `record` is not part of this model.
- `interact` and `skip_web_compile` are only forwarded to `process_file` and `record`.
- `record` reads `args['record']`: a missing `record` key and a non-list value are not modelled, and no requests stands for an empty or falsy value.
- Processing students in parallel is a concern of the caller and is not modelled.
