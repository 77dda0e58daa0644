/** The recording a student's assignment produces: the dictionary the
    Markdown renderer consumes.

    Keys the renderer reads with `d.get(key, default)` are plain fields whose
    default value stands for an absent key. Keys it reads with `d[key]`, which
    raise `KeyError` when absent, are `Option` fields. Dictionaries become
    sequences of pairs in insertion order, which is the order in which Python
    iterates them. */
module Recordings {
  import opened Outcomes

  /** A warning's value as the renderer meets it: a flag, a message, or a list of names. */
  datatype WarningValue = BoolValue(b: bool) | StrValue(s: string) | ListValue(items: seq<string>)

  /** Python truthiness of a warning value. */
  predicate Truthy(v: WarningValue)
  {
    match v
    case BoolValue(b) => b
    case StrValue(s) => s != ""
    case ListValue(items) => items != []
  }

  /** One compile step of a file: the keys `command` and `output`. */
  datatype CompileEntry = CompileEntry(command: Option<string>, output: Option<string>)

  /** One test run of a file: the keys `command`, `status`, `output`,
      `truncated` and `truncated after`. The status and the truncation point
      are held as the text `str.format` would print for them. */
  datatype TestEntry = TestEntry(
    command: Option<string>,
    status: Option<string>,
    output: Option<string>,
    truncated: Option<bool>,
    truncatedAfter: Option<string>)

  /** What the recording says about one file. `contents`, `compilation`,
      `result`, `last modified` and `other files` default to empty values;
      `missing` and `optional` are required by the renderer. */
  datatype FileInfo = FileInfo(
    contents: string,
    compilation: seq<CompileEntry>,
    result: seq<TestEntry>,
    lastModified: string,
    missing: Option<bool>,
    optional: Option<bool>,
    otherFiles: seq<string>)

  /** A recording: the assignment (`spec`), the student, an optional
      `first_submit` line, the files and the warnings. An absent `files` or
      `warnings` key behaves as an empty dictionary. */
  datatype Recording = Recording(
    spec: string,
    student: string,
    firstSubmit: Option<string>,
    files: seq<(string, FileInfo)>,
    warnings: seq<(string, WarningValue)>)
}
