/** The command-line classifier (`processParams` with `setSearchPattern` and
    `setNotMask`) and the checks made once it is done (`checkParams`).

    The script keeps its parse state in module globals; here it is the value
    `ParseState`, `Step` is one pass of the loop body and `Run` the whole
    loop, while the class `ArgParser` keeps the same state in fields and
    runs the loop itself, proved to agree with `Run`. Leaving the program
    (`printHelp`, `errorExit`) is an `Exit` value. */
module Params {
  import opened Wrappers
  import opened FileSets

  datatype ParseState = ParseState(
    files: seq<string>,     // FILES_TO_SEARCH
    pattern: string,        // PATTERN; "" while no pattern is set
    mask: Option<string>,   // NOT_IN
    ignoreCase: bool,       // IC_GREP == "-i"
    expectNot: bool,        // the next token is the exclusion mask
    expectPat: bool)        // the next token is the pattern

  /** The globals as the script initialises them. */
  const Initial := ParseState([], "", None, false, false, false)

  /** Why the program stops early: `-h` (exit status 0 after the help text)
      or an `errorExit` cause (exit status 1). */
  datatype Exit = Help | Error(cause: string)

  datatype ParseResult = Exited(exit: Exit) | Parsed(st: ParseState)

  const EmptyPattern := "Cannot search for an empty pattern."

  function Unrecognized(par: string): string {
    "Unrecognized parameter '" + par + "'."
  }

  /** The state after `setSearchPattern`: a non-empty token becomes the pattern, replacing any
      earlier one, and disarms the pattern latch. */
  function PatternUpdate(st: ParseState, par: string): (r: ParseResult)
    ensures r.Parsed? <==> par != []
    ensures r.Parsed? ==> r.st.pattern == par && !r.st.expectPat
    ensures r.Parsed? ==> r.st == st.(pattern := par, expectPat := false)
    ensures r.Exited? ==> r.exit == Error(EmptyPattern)
  {
    if par != [] then Parsed(st.(pattern := par, expectPat := false))
    else Exited(Error(EmptyPattern))
  }

  /** The state after `setNotMask`: the token becomes the mask and disarms the mask latch. */
  function MaskUpdate(st: ParseState, par: string): ParseState {
    st.(mask := Some(par), expectNot := false)
  }

  /** The last four branches of the loop body: existing file, existing
      directory, first leftover as pattern, anything else an error. */
  function Positional(fs: FileSystem, st: ParseState, par: string): ParseResult {
    if par in fs.files then Parsed(st.(files := st.files + [par]))
    else if par in fs.dirs then Parsed(st.(files := st.files + PdfsOf(fs, par)))
    else if st.pattern == [] then PatternUpdate(st, par)
    else Exited(Error(Unrecognized(par)))
  }

  /** One iteration of the loop in `processParams`. */
  function Step(fs: FileSystem, st: ParseState, par: string): ParseResult {
    if st.expectPat then PatternUpdate(st, par)
    else if st.expectNot then Parsed(MaskUpdate(st, par))
    else if par == "-h" then Exited(Help)
    else if par == "-p" then Parsed(st.(expectPat := true))
    else if par == "-i" then Parsed(st.(ignoreCase := true))
    else if par == "not" && !MaskSet(st.mask) then Parsed(st.(expectNot := true))
    else Positional(fs, st, par)
  }

  /** The whole loop: stops at the first token that leaves the program. */
  function Run(fs: FileSystem, st: ParseState, params: seq<string>): ParseResult
    decreases |params|
  {
    if params == [] then Parsed(st)
    else
      match Step(fs, st, params[0])
      case Parsed(next) => Run(fs, next, params[1..])
      case Exited(e) => Exited(e)
  }

  /** Running over two pieces is running over the first and, unless that
      left the program, then over the second from where it stopped. */
  lemma {:induction false} RunAppend(fs: FileSystem, st: ParseState, a: seq<string>, b: seq<string>)
    ensures Run(fs, st, a + b) ==
      match Run(fs, st, a)
      case Parsed(mid) => Run(fs, mid, b)
      case Exited(e) => Exited(e)
    decreases |a|
  {
    if a == [] {
      assert a + b == b;
    } else {
      assert (a + b)[0] == a[0] && (a + b)[1..] == a[1..] + b;
      match Step(fs, st, a[0])
      case Parsed(next) => RunAppend(fs, next, a[1..], b);
      case Exited(e) =>
    }
  }

  /** At most one of the two latches is armed. */
  predicate OneLatch(st: ParseState) {
    !(st.expectPat && st.expectNot)
  }

  lemma {:induction false} RunKeepsOneLatch(fs: FileSystem, st: ParseState, params: seq<string>)
    requires OneLatch(st)
    ensures Run(fs, st, params).Parsed? ==> OneLatch(Run(fs, st, params).st)
    decreases |params|
  {
    if params != [] {
      match Step(fs, st, params[0])
      case Parsed(next) => RunKeepsOneLatch(fs, next, params[1..]);
      case Exited(e) =>
    }
  }

  /** An armed latch takes the very next token as it is, whatever its shape
      (a flag, the keyword, an existing path); the pattern latch is served
      first. */
  lemma LatchTakesNextToken(fs: FileSystem, st: ParseState, par: string)
    ensures st.expectPat ==> Step(fs, st, par) == PatternUpdate(st, par)
    ensures !st.expectPat && st.expectNot ==>
      Step(fs, st, par) == Parsed(st.(mask := Some(par), expectNot := false))
  {
  }

  /** `-p x` sets the pattern to `x` even when a pattern is already set. */
  lemma ExplicitPattern(fs: FileSystem, st: ParseState, x: string, rest: seq<string>)
    requires !st.expectPat && !st.expectNot
    ensures Run(fs, st, ["-p", x] + rest) ==
      if x == [] then Exited(Error(EmptyPattern))
      else Run(fs, st.(pattern := x), rest)
  {
    var ts := ["-p", x] + rest;
    assert ts[0] == "-p" && ts[1..] == [x] + rest;
    var armed := st.(expectPat := true);
    assert Run(fs, st, ts) == Run(fs, armed, [x] + rest);
    assert ([x] + rest)[0] == x && ([x] + rest)[1..] == rest;
  }

  /** `not m` sets the mask to `m` while no non-empty mask is set ... */
  lemma NotSetsMask(fs: FileSystem, st: ParseState, m: string, rest: seq<string>)
    requires !st.expectPat && !st.expectNot && !MaskSet(st.mask)
    ensures Run(fs, st, ["not", m] + rest) == Run(fs, st.(mask := Some(m)), rest)
  {
    var ts := ["not", m] + rest;
    assert ts[0] == "not" && ts[1..] == [m] + rest;
    assert ([m] + rest)[0] == m && ([m] + rest)[1..] == rest;
  }

  /** ... and once one is, `not` is an ordinary positional token. */
  lemma NotAfterMask(fs: FileSystem, st: ParseState)
    requires !st.expectPat && !st.expectNot && MaskSet(st.mask)
    ensures Step(fs, st, "not") == Positional(fs, st, "not")
  {
  }

  /** Once a non-empty mask is set it is never replaced. (An empty mask, as
      given by `not ""`, does not count as set.) */
  lemma {:induction false} MaskSetOnce(fs: FileSystem, st: ParseState, params: seq<string>)
    requires MaskSet(st.mask) && !st.expectNot
    ensures Run(fs, st, params).Parsed? ==> Run(fs, st, params).st.mask == st.mask
    decreases |params|
  {
    if params != [] {
      match Step(fs, st, params[0])
      case Parsed(next) => MaskSetOnce(fs, next, params[1..]);
      case Exited(e) =>
    }
  }

  /** A token that is no flag, not the live keyword and no existing path:
      the first becomes the pattern (an empty one is refused), the next is
      an error. */
  lemma LeftoverTokens(fs: FileSystem, st: ParseState, par: string)
    requires !st.expectPat && !st.expectNot
    requires par != "-h" && par != "-p" && par != "-i"
    requires par != "not" || MaskSet(st.mask)
    requires par !in fs.files && par !in fs.dirs
    ensures st.pattern == [] && par != [] ==> Step(fs, st, par) == Parsed(st.(pattern := par))
    ensures st.pattern == [] && par == [] ==> Step(fs, st, par) == Exited(Error(EmptyPattern))
    ensures st.pattern != [] ==> Step(fs, st, par) == Exited(Error(Unrecognized(par)))
  {
  }

  /** An existing file is taken as given, without looking at its name; an
      existing directory adds its PDF files. */
  lemma PathTokens(fs: FileSystem, st: ParseState, par: string)
    requires !st.expectPat && !st.expectNot
    requires par != "-h" && par != "-p" && par != "-i"
    requires par != "not" || MaskSet(st.mask)
    ensures par in fs.files ==> Step(fs, st, par) == Parsed(st.(files := st.files + [par]))
    ensures par !in fs.files && par in fs.dirs ==>
      Step(fs, st, par) == Parsed(st.(files := st.files + PdfsOf(fs, par)))
  {
  }

  /** A trailing `-p` (or a trailing live `not`) is no error: the loop ends
      with the latch armed. */
  lemma TrailingMarker(fs: FileSystem, params: seq<string>, marker: string)
    requires Run(fs, Initial, params).Parsed?
    requires var s := Run(fs, Initial, params).st; !s.expectPat && !s.expectNot
    requires marker == "-p" || (marker == "not" && !MaskSet(Run(fs, Initial, params).st.mask))
    ensures Run(fs, Initial, params + [marker]).Parsed?
    ensures marker == "-p" ==> Run(fs, Initial, params + [marker]).st.expectPat
    ensures marker == "not" ==> Run(fs, Initial, params + [marker]).st.expectNot
  {
    RunAppend(fs, Initial, params, [marker]);
  }

  /** The collected list only grows, and everything added is an existing
      regular file (a directory's PDFs are checked with `isfile` too). */
  lemma {:induction false} RunCollectsFiles(fs: FileSystem, st: ParseState, params: seq<string>)
    ensures Run(fs, st, params).Parsed? ==>
      var s := Run(fs, st, params).st;
      st.files <= s.files && forall p :: p in s.files[|st.files|..] ==> p in fs.files
    decreases |params|
  {
    if params != [] {
      match Step(fs, st, params[0])
      case Parsed(next) =>
        RunCollectsFiles(fs, next, params[1..]);
        var par := params[0];
        if next.files != st.files {
          assert next.files[..|st.files|] == st.files;
          forall p | p in next.files[|st.files|..] ensures p in fs.files {
            if !(par in fs.files) {
              PdfsOfMembers(fs, par, p);
              assert next.files[|st.files|..] == PdfsOf(fs, par);
            } else {
              assert next.files[|st.files|..] == [par];
            }
          }
        }
        if Run(fs, st, params).Parsed? {
          var s := Run(fs, st, params).st;
          forall p | p in s.files[|st.files|..] ensures p in fs.files {
            var k :| |st.files| <= k < |s.files| && s.files[k] == p;
            if k >= |next.files| {
              assert p in s.files[|next.files|..];
            } else {
              assert p in next.files[|st.files|..];
            }
          }
        }
      case Exited(e) =>
    }
  }

  /** The parse state held in fields, as the script holds it in globals. */
  class ArgParser {
    var files: seq<string>
    var pattern: string
    var mask: Option<string>
    var ignoreCase: bool
    var expectNot: bool
    var expectPat: bool

    function State(): ParseState
      reads this
    {
      ParseState(files, pattern, mask, ignoreCase, expectNot, expectPat)
    }

    constructor ()
      ensures State() == Initial
    {
      files, pattern, mask, ignoreCase := [], [], None, false;
      expectNot, expectPat := false, false;
    }

    method SetNotMask(par: string)
      modifies this
      ensures State() == MaskUpdate(old(State()), par)
    {
      mask := Some(par);
      expectNot := false;
    }

    method SetSearchPattern(par: string) returns (exit: Option<Exit>)
      modifies this
      ensures PatternUpdate(old(State()), par) ==
        if exit.Some? then Exited(exit.value) else Parsed(State())
    {
      if par != [] {
        pattern := par;
        expectPat := false;
        exit := None;
      } else {
        exit := Some(Error(EmptyPattern));
      }
    }

    /** `processParams`; `exit` is where the script would leave the program. */
    method ProcessParams(fs: FileSystem, params: seq<string>) returns (exit: Option<Exit>)
      modifies this
      ensures Run(fs, old(State()), params) ==
        if exit.Some? then Exited(exit.value) else Parsed(State())
    {
      exit := None;
      var i := 0;
      while i < |params|
        invariant 0 <= i <= |params|
        invariant exit.None?
        invariant Run(fs, old(State()), params) == Run(fs, State(), params[i..])
      {
        var par := params[i];
        ghost var before := State();
        if expectPat {
          exit := SetSearchPattern(par);
        } else if expectNot {
          SetNotMask(par);
        } else if par == "-h" {
          exit := Some(Help);
        } else if par == "-p" {
          expectPat := true;
        } else if par == "-i" {
          ignoreCase := true;
        } else if par == "not" && !MaskSet(mask) {
          expectNot := true;
        } else if par in fs.files {
          files := files + [par];
        } else if par in fs.dirs {
          var pdfs := DirPdfs(fs, par);
          files := files + pdfs;
        } else if pattern == [] {
          exit := SetSearchPattern(par);
        } else {
          exit := Some(Error(Unrecognized(par)));
        }
        assert Step(fs, before, par) == if exit.Some? then Exited(exit.value) else Parsed(State());
        assert params[i..][0] == par && params[i..][1..] == params[i + 1..];
        if exit.Some? {
          return;
        }
        i := i + 1;
      }
      assert params[i..] == [];
    }
  }

  const NoPattern := "Search for what?"
  const Multiline := "Multiline search patterns are not supported."
  const NoFiles := "Search where?"

  /** `checkParams`, after the list is normalised: the cause of the first
      failed check, in the script's order, or `None` when all pass. */
  function CheckParams(pattern: string, files: seq<string>): (r: Option<string>)
    ensures r.None? <==> pattern != [] && '\n' !in pattern && files != []
    ensures pattern == [] ==> r == Some(NoPattern)
    ensures pattern != [] && '\n' in pattern ==> r == Some(Multiline)
    ensures pattern != [] && '\n' !in pattern && files == [] ==> r == Some(NoFiles)
  {
    if pattern == [] then Some(NoPattern)
    else if '\n' in pattern then Some(Multiline)
    else if files == [] then Some(NoFiles)
    else None
  }
}
