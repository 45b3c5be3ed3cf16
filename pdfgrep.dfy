/** The script as a whole (its `__main__` block): classify the arguments,
    normalize the file list, validate, search, and produce the report that
    would be shown in the pager. The file system, the collation key, the text
    extractor and the regular-expression engine are parameters. */
module PdfGrep {
  import opened Wrappers
  import opened Seqs
  import opened FileSets
  import opened Params
  import opened Search
  import opened Report

  /** How a run ends: the help text (exit status 0), an error message
      (`errorExit`, status 1), or a finished search with the report text
      when there was at least one hit. */
  datatype Outcome = ShowHelp | Failure(cause: string) | Finished(report: Option<string>)

  /** The line `errorExit` prints on the standard error stream. */
  function Diagnostic(cause: string): (line: string)
    ensures |line| == |cause| + 13 && line[..|cause|] == cause && line[|cause|..] == " Exiting now!"
  {
    cause + " Exiting now!"
  }

  /** The process exit status: 1 exactly for an error. */
  function ExitStatus(o: Outcome): (status: nat)
    ensures status == 1 <==> o.Failure?
    ensures status == 0 <==> !o.Failure?
  {
    if o.Failure? then 1 else 0
  }

  /** The compiled pattern's `findall` count on a line; `matches` stands for
      the regular-expression engine, given the pattern and the case flag. */
  function LineMatcher(matches: (string, bool, string) -> nat, pattern: string, ignoreCase: bool): string -> nat {
    line => matches(pattern, ignoreCase, line)
  }

  /** What the script does with the arguments `args`. */
  function Script(fs: FileSystem, args: seq<string>, key: string -> string,
                  extract: string -> seq<string>, matches: (string, bool, string) -> nat): Outcome
  {
    match Run(fs, Initial, args)
      case Exited(Help) => ShowHelp
      case Exited(Error(cause)) => Failure(cause)
      case Parsed(st) =>
        var files := NormalizeFileList(st.files, st.mask, key);
        match CheckParams(st.pattern, files)
          case Some(cause) => Failure(cause)
          case None =>
            var count := LineMatcher(matches, st.pattern, st.ignoreCase);
            Finished(ReportOutput(Collect(Map(files, FileOutcome(extract, count)))))
  }

  /** The `__main__` block, step by step, with the stateful parser. */
  method RunScript(fs: FileSystem, args: seq<string>, key: string -> string,
                   extract: string -> seq<string>, matches: (string, bool, string) -> nat)
    returns (outcome: Outcome)
    ensures outcome == Script(fs, args, key, extract, matches)
  {
    var parser := new ArgParser();
    var exit := parser.ProcessParams(fs, args);
    if exit.Some? {
      match exit.value
      case Help => return ShowHelp;
      case Error(cause) => return Failure(cause);
    }
    var kept := Dedup(parser.files);
    if MaskSet(parser.mask) {
      kept := FilterList(kept, parser.mask.value);
    }
    var files := SortList(kept, key);
    var check := CheckParams(parser.pattern, files);
    if check.Some? {
      return Failure(check.value);
    }
    var result := DoSearch(files, extract, LineMatcher(matches, parser.pattern, parser.ignoreCase));
    outcome := Finished(ReportOutput(result));
  }

  /** Whether the arguments get as far as the search: they parse, the
      pattern is non-empty and single-line, and some file survives. */
  predicate Searches(fs: FileSystem, args: seq<string>, key: string -> string) {
    match Run(fs, Initial, args)
      case Exited(_) => false
      case Parsed(st) =>
        st.pattern != [] && '\n' !in st.pattern && NormalizeFileList(st.files, st.mask, key) != []
  }

  /** A run ends in a finished search exactly when the arguments get that
      far; otherwise its outcome depends neither on the documents' text nor
      on the regular-expression engine. */
  lemma OutcomeBeforeSearch(fs: FileSystem, args: seq<string>, key: string -> string,
                            extract: string -> seq<string>, matches: (string, bool, string) -> nat,
                            extract': string -> seq<string>, matches': (string, bool, string) -> nat)
    ensures Script(fs, args, key, extract, matches).Finished? <==> Searches(fs, args, key)
    ensures !Searches(fs, args, key) ==>
      Script(fs, args, key, extract, matches) == Script(fs, args, key, extract', matches')
  {
  }

  /** `-h` as the first argument shows the help, whatever follows. */
  lemma HelpFirst(fs: FileSystem, rest: seq<string>, key: string -> string,
                  extract: string -> seq<string>, matches: (string, bool, string) -> nat)
    ensures Script(fs, ["-h"] + rest, key, extract, matches) == ShowHelp
  {
    assert (["-h"] + rest)[0] == "-h";
  }

  /** Only existing regular files are handed to the text extractor, each
      once, in collation order, and none whose base name starts with a
      given mask. */
  lemma SearchedFiles(fs: FileSystem, args: seq<string>, key: string -> string)
    requires Run(fs, Initial, args).Parsed?
    ensures var st := Run(fs, Initial, args).st;
      var files := NormalizeFileList(st.files, st.mask, key);
      && (forall p :: p in files ==> p in fs.files && Survives(st.mask, p))
      && Distinct(files)
      && SortedBy(files, key)
  {
    var st := Run(fs, Initial, args).st;
    RunCollectsFiles(fs, Initial, args);
    assert st.files[|Initial.files|..] == st.files;
    NormalizeFileListSpec(st.files, st.mask, key);
  }

  /** A finished search has a report exactly when some document matched, and
      the report then opens with the totals. */
  lemma ReportWhenHits(fs: FileSystem, args: seq<string>, key: string -> string,
                       extract: string -> seq<string>, matches: (string, bool, string) -> nat)
    ensures Searches(fs, args, key) ==>
      var st := Run(fs, Initial, args).st;
      var files := NormalizeFileList(st.files, st.mask, key);
      var r := Collect(Map(files, FileOutcome(extract, LineMatcher(matches, st.pattern, st.ignoreCase))));
      && Script(fs, args, key, extract, matches) == Finished(ReportOutput(r))
      && (ReportOutput(r).Some? <==> r.total > 0)
      && (r.total > 0 ==> ParseTotalHeader(ReportText(r)[..|TotalHeader(r.total, r.lines)|]) == Some((r.total, r.lines)))
  {
    if Searches(fs, args, key) {
      var st := Run(fs, Initial, args).st;
      var files := NormalizeFileList(st.files, st.mask, key);
      var r := Collect(Map(files, FileOutcome(extract, LineMatcher(matches, st.pattern, st.ignoreCase))));
      ReportOpensWithTotals(r);
    }
  }
}
