/** The typed per-file record of stograde/process_file/File_Result.py. */
module FileResults {

  /** The outcome of one compile command; its fields are not part of this model. */
  type CompileResult(==)

  /** The outcome of one test run; its fields are not part of this model. */
  type TestResult(==)

  /** What grading one file produced. `otherFiles` is a single text (the
      directory listing), not a list of names. */
  datatype FileResult = FileResult(
    fileName: string,
    compileResults: seq<CompileResult>,
    testResults: seq<TestResult>,
    fileMissing: bool,
    lastModified: string,
    otherFiles: string,
    optional: bool,
    compileOptional: bool,
    contents: string)

  /** A result holding nothing beyond its file name: what a file's result is
      before grading records anything in it. */
  predicate Untouched(r: FileResult)
  {
    && r.compileResults == [] && r.testResults == []
    && !r.fileMissing && !r.optional && !r.compileOptional
    && r.lastModified == "" && r.otherFiles == "" && r.contents == ""
  }

  /** `FileResult(file_name=name)`: only the name is required, every other
      field takes its default. */
  function NewFileResult(name: string): (r: FileResult)
    ensures r.fileName == name
    ensures Untouched(r)
  {
    FileResult(name, [], [], false, "", "", false, false, "")
  }

  /** A default result is determined by its name, and every untouched result
      is the default one for its name. */
  lemma DefaultsDetermined(r: FileResult)
    ensures Untouched(r) <==> r == NewFileResult(r.fileName)
  {
  }
}
