/** The text of the report that `processResult` writes: the total header
    (`writeHeader`), then for every file with hits its header
    (`writeFileHeader`) and its rendered lines, each followed by a newline.
    The temporary file itself is not modelled; only the string written to it. */
module Report {
  import opened Wrappers
  import opened Text
  import opened Search

  /** A run of `n` asterisks. */
  function Stars(n: nat): (s: string)
    ensures |s| == n && '\n' !in s
  {
    if n == 0 then [] else Stars(n - 1) + "*"
  }

  /** `DELIMITER`: a newline, 93 asterisks and a newline. */
  function Delimiter(): string {
    "\n" + Stars(93) + "\n"
  }

  const TotalPrefix: string := "*** Total hits: "

  /** Splitting a concatenation at the end of its first part. */
  lemma Split(p: string, rest: string)
    ensures (p + rest)[..|p|] == p && (p + rest)[|p|..] == rest
  {
  }

  /** `writeHeader`: the in-lines part is dropped when the two counts agree.
      The word "lines" is never made singular. */
  function TotalHeader(total: nat, lines: nat): string {
    if total == lines then TotalPrefix + (DecimalString(total) + "\n")
    else TotalPrefix + (DecimalString(total) + (" in " + (DecimalString(lines) + " lines\n")))
  }

  /** Reads " in " and a number, returning the number and what follows. */
  function ReadIn(s: string): Option<(nat, string)> {
    if |s| >= 4 && s[..4] == " in " then ReadNat(s[4..]) else None
  }

  lemma ReadInOf(n: nat, tail: string)
    requires tail == [] || !IsDigit(tail[0])
    ensures ReadIn(" in " + (DecimalString(n) + tail)) == Some((n, tail))
  {
    Split(" in ", DecimalString(n) + tail);
    ReadDecimal(n, tail);
  }

  /** Reads a total header back into its two counts. */
  function ParseTotalHeader(s: string): Option<(nat, nat)> {
    if |s| < |TotalPrefix| || s[..|TotalPrefix|] != TotalPrefix then None
    else match ReadNat(s[|TotalPrefix|..])
      case None => None
      case Some((total, rest)) =>
        if rest == "\n" then Some((total, total))
        else match ReadIn(rest)
          case None => None
          case Some((lines, tail)) => if tail == " lines\n" then Some((total, lines)) else None
  }

  /** The total header determines both counts. */
  lemma TotalHeaderRoundTrip(total: nat, lines: nat)
    ensures ParseTotalHeader(TotalHeader(total, lines)) == Some((total, lines))
  {
    if total == lines {
      BareTotalRoundTrip(total);
    } else {
      TotalInLinesRoundTrip(total, lines);
    }
  }

  lemma BareTotalRoundTrip(total: nat)
    ensures ParseTotalHeader(TotalPrefix + (DecimalString(total) + "\n")) == Some((total, total))
  {
    Split(TotalPrefix, DecimalString(total) + "\n");
    ReadDecimal(total, "\n");
  }

  lemma TotalInLinesRoundTrip(total: nat, lines: nat)
    ensures var rest := " in " + (DecimalString(lines) + " lines\n");
      ParseTotalHeader(TotalPrefix + (DecimalString(total) + rest)) == Some((total, lines))
  {
    var rest := " in " + (DecimalString(lines) + " lines\n");
    Split(TotalPrefix, DecimalString(total) + rest);
    ReadDecimal(total, rest);
    ReadInOf(lines, " lines\n");
  }

  /** The header is the bare total exactly when total and lines agree. */
  lemma TotalHeaderOmitsLines(total: nat, lines: nat)
    ensures total == lines <==> TotalHeader(total, lines) == TotalPrefix + (DecimalString(total) + "\n")
  {
    if total != lines {
      assert |TotalHeader(total, lines)| > |TotalPrefix + (DecimalString(total) + "\n")|;
    }
  }

  /** `hitWord` and `lineWord`: the word as it is for exactly one, with an
      "s" otherwise. */
  function Plural(word: string, n: nat): (w: string)
    ensures w == word <==> n == 1
    ensures w == word || w == word + "s"
  {
    if n == 1 then word else word + "s"
  }

  /** `dirLbl`: present exactly when the directory is non-empty. */
  function DirLabel(dir: string): (r: string)
    ensures r == [] <==> dir == []
    ensures dir != [] ==> |r| == |dir| + 4 && r[2..|r| - 2] == dir
    ensures dir != [] ==> r[..2] == " [" && r[|r| - 2..] == "/]"
  {
    if dir != [] then " [" + dir + "/]" else ""
  }

  /** The counts part of a file header, `%d %s` or `%d %s in %d %s`: the
      number of lines is given only when it differs from the hits. */
  function SummaryCounts(hits: nat, lines: nat): string {
    var w := " " + Plural("hit", hits);
    if hits == lines then DecimalString(hits) + w
    else DecimalString(hits) + (w + (" in " + (DecimalString(lines) + (" " + Plural("line", lines)))))
  }

  /** Reads the counts part of a file header back. */
  function ParseCounts(s: string): Option<(nat, nat)> {
    match ReadNat(s)
      case None => None
      case Some((hits, rest)) =>
        var w := " " + Plural("hit", hits);
        if rest == w then Some((hits, hits))
        else if |rest| < |w| || rest[..|w|] != w then None
        else match ReadIn(rest[|w|..])
          case None => None
          case Some((lines, tail)) => if tail == " " + Plural("line", lines) then Some((hits, lines)) else None
  }

  /** The counts part determines both counts. */
  lemma CountsRoundTrip(hits: nat, lines: nat)
    ensures ParseCounts(SummaryCounts(hits, lines)) == Some((hits, lines))
  {
    var w := " " + Plural("hit", hits);
    if hits == lines {
      ReadDecimal(hits, w);
    } else {
      var tail := " " + Plural("line", lines);
      var more := " in " + (DecimalString(lines) + tail);
      ReadDecimal(hits, w + more);
      Split(w, more);
      ReadInOf(lines, tail);
    }
  }

  /** The counts part names the lines exactly when they differ from the hits. */
  lemma CountsOmitLines(hits: nat, lines: nat)
    ensures hits == lines <==> SummaryCounts(hits, lines) == DecimalString(hits) + " " + Plural("hit", hits)
  {
    if hits != lines {
      assert |SummaryCounts(hits, lines)| > |DecimalString(hits) + " " + Plural("hit", hits)|;
    }
  }

  /** The summary line of `writeFileHeader`, without its newlines. */
  function SummaryLine(fr: FileResult): string {
    "*** " + fr.name + DirLabel(fr.dir) + ": " + SummaryCounts(fr.hits, |fr.lines|)
  }

  /** `writeFileHeader`: the delimiter, the summary line, an empty line. */
  function FileHeader(fr: FileResult): string {
    Delimiter() + SummaryLine(fr) + "\n\n"
  }

  /** The lines of one file, each followed by a newline. */
  function Body(lines: seq<string>): (r: string)
    ensures |r| >= |lines|
  {
    if lines == [] then "" else Body(lines[..|lines| - 1]) + lines[|lines| - 1] + "\n"
  }

  /** Header and body of every entry of `found`, in order. */
  function Sections(found: seq<FileResult>): string {
    if found == [] then ""
    else
      var fr := found[|found| - 1];
      Sections(found[..|found| - 1]) + FileHeader(fr) + Body(fr.lines)
  }

  /** What `processResult` writes. */
  function ReportText(r: SearchResult): string {
    TotalHeader(r.total, r.lines) + Sections(r.found)
  }

  /** The report is produced only when there was at least one hit. */
  function ReportOutput(r: SearchResult): (out: Option<string>)
    ensures out.None? <==> r.total == 0
  {
    if r.total != 0 then Some(ReportText(r)) else None
  }

  /** The report opens with the total header, which reads back as the
      search's totals. */
  lemma ReportOpensWithTotals(r: SearchResult)
    ensures var n := |TotalHeader(r.total, r.lines)|;
      n <= |ReportText(r)| && ParseTotalHeader(ReportText(r)[..n]) == Some((r.total, r.lines))
  {
    Split(TotalHeader(r.total, r.lines), Sections(r.found));
    TotalHeaderRoundTrip(r.total, r.lines);
  }

  /** The sections of two lists of entries, one after the other. */
  lemma {:induction false} SectionsAppend(a: seq<FileResult>, b: seq<FileResult>)
    ensures Sections(a + b) == Sections(a) + Sections(b)
    decreases |b|
  {
    if b == [] {
      assert a + b == a;
    } else {
      var b', x := b[..|b| - 1], b[|b| - 1];
      var t := FileHeader(x) + Body(x.lines);
      assert (a + b)[..|a + b| - 1] == a + b';
      assert (a + b)[|a + b| - 1] == x;
      assert Sections(a + b) == Sections(a + b') + FileHeader(x) + Body(x.lines);
      SectionsAppend(a, b');
      assert Sections(b) == Sections(b') + FileHeader(x) + Body(x.lines);
      Assoc(Sections(a), Sections(b'), FileHeader(x), Body(x.lines));
    }
  }

  /** Regrouping four concatenated strings. */
  lemma Assoc(p: string, q: string, u: string, v: string)
    ensures (p + q) + u + v == p + (q + u + v)
  {
  }

  lemma SingleSection(x: FileResult)
    ensures Sections([x]) == FileHeader(x) + Body(x.lines)
  {
    assert [x][..0] == [];
    assert Sections([x]) == [] + FileHeader(x) + Body(x.lines);
  }

  /** The sections around the `j`-th entry. */
  lemma SectionsAround(found: seq<FileResult>, j: nat)
    requires j < |found|
    ensures Sections(found) ==
      Sections(found[..j]) + ((FileHeader(found[j]) + Body(found[j].lines)) + Sections(found[j + 1..]))
  {
    var pre, x, post := found[..j], found[j], found[j + 1..];
    assert found == pre + ([x] + post);
    SectionsAppend(pre, [x] + post);
    SectionsAppend([x], post);
    SingleSection(x);
  }

  /** The report is the total header, then for each found entry, in order,
      its file header and its rendered lines. */
  lemma ReportSections(r: SearchResult, j: nat)
    requires j < |r.found|
    ensures ReportText(r) ==
      TotalHeader(r.total, r.lines) + Sections(r.found[..j])
      + (FileHeader(r.found[j]) + Body(r.found[j].lines)) + Sections(r.found[j + 1..])
  {
    SectionsAround(r.found, j);
    Regroup(TotalHeader(r.total, r.lines), Sections(r.found[..j]),
            FileHeader(r.found[j]) + Body(r.found[j].lines), Sections(r.found[j + 1..]));
  }

  /** Regrouping four concatenated strings the other way. */
  lemma Regroup(p: string, q: string, u: string, v: string)
    ensures p + (q + (u + v)) == p + q + u + v
  {
  }

  /** A summary line is `*** `, the name, the directory label and `: `,
      followed by a counts part that reads back as the entry's hits and
      number of lines. */
  lemma SummaryLineCounts(fr: FileResult)
    ensures var s, c := SummaryLine(fr), SummaryCounts(fr.hits, |fr.lines|);
      && |c| <= |s|
      && s[..|s| - |c|] == "*** " + fr.name + DirLabel(fr.dir) + ": "
      && ParseCounts(s[|s| - |c|..]) == Some((fr.hits, |fr.lines|))
  {
    var p := "*** " + fr.name + DirLabel(fr.dir) + ": ";
    Split(p, SummaryCounts(fr.hits, |fr.lines|));
    CountsRoundTrip(fr.hits, |fr.lines|);
  }

  predicate NoNewline(s: string) {
    '\n' !in s
  }

  /** Entries whose name, directory and lines hold no newline. */
  predicate SingleLineEntries(found: seq<FileResult>) {
    forall fr :: fr in found ==>
      NoNewline(fr.name) && NoNewline(fr.dir) && forall line :: line in fr.lines ==> NoNewline(line)
  }

  /** The number of report lines a list of entries takes: four header lines
      (blank, delimiter, summary, blank) and one per rendered line. */
  function SectionLineCount(found: seq<FileResult>): nat {
    if found == [] then 0
    else SectionLineCount(found[..|found| - 1]) + 4 + |found[|found| - 1].lines|
  }

  lemma NewlineCount()
    ensures Occurrences("\n", '\n') == 1
  {
    assert "\n"[..0] == [];
  }

  /** Counting newlines across a concatenation whose first part has none. */
  lemma NewlinesAfter(a: string, b: string, n: nat)
    requires NoNewline(a) && Occurrences(b, '\n') == n
    ensures Occurrences(a + b, '\n') == n
  {
    OccurrencesAbsent(a, '\n');
    OccurrencesAppend(a, b, '\n');
  }

  lemma {:induction false} BodyNewlines(lines: seq<string>)
    requires forall line :: line in lines ==> NoNewline(line)
    ensures Occurrences(Body(lines), '\n') == |lines|
  {
    if lines != [] {
      var init, last := lines[..|lines| - 1], lines[|lines| - 1];
      assert lines == init + [last] && last in lines;
      BodyNewlines(init);
      OccurrencesAbsent(last, '\n');
      NewlineCount();
      OccurrencesAppend(Body(init), last, '\n');
      OccurrencesAppend(Body(init) + last, "\n", '\n');
    }
  }

  lemma DelimiterNewlines()
    ensures Occurrences(Delimiter(), '\n') == 2
  {
    var stars := Stars(93);
    NewlineCount();
    NewlinesAfter(stars, "\n", 1);
    OccurrencesAppend("\n", stars + "\n", '\n');
    assert Delimiter() == "\n" + (stars + "\n");
  }

  lemma SummaryLineNoNewline(fr: FileResult)
    requires NoNewline(fr.name) && NoNewline(fr.dir)
    ensures NoNewline(SummaryLine(fr))
  {
    CountsNoNewline(fr.hits, |fr.lines|);
    assert NoNewline(DirLabel(fr.dir));
    NoNewlineConcat("*** ", fr.name);
    NoNewlineConcat("*** " + fr.name, DirLabel(fr.dir));
    NoNewlineConcat("*** " + fr.name + DirLabel(fr.dir), ": ");
    NoNewlineConcat("*** " + fr.name + DirLabel(fr.dir) + ": ", SummaryCounts(fr.hits, |fr.lines|));
  }

  lemma CountsNoNewline(hits: nat, lines: nat)
    ensures NoNewline(SummaryCounts(hits, lines))
  {
    var w := " " + Plural("hit", hits);
    DigitsNoNewline(DecimalString(hits));
    NoNewlineConcat(DecimalString(hits), w);
    if hits != lines {
      DigitsNoNewline(DecimalString(lines));
      NoNewlineConcat(DecimalString(lines), " " + Plural("line", lines));
      NoNewlineConcat(" in ", DecimalString(lines) + (" " + Plural("line", lines)));
      NoNewlineConcat(w, " in " + (DecimalString(lines) + (" " + Plural("line", lines))));
      NoNewlineConcat(DecimalString(hits), w + (" in " + (DecimalString(lines) + (" " + Plural("line", lines)))));
    }
  }

  lemma NoNewlineConcat(a: string, b: string)
    requires NoNewline(a) && NoNewline(b)
    ensures NoNewline(a + b)
  {
  }

  lemma DigitsNoNewline(s: string)
    requires AllDigits(s)
    ensures NoNewline(s)
  {
  }

  lemma FileHeaderNewlines(fr: FileResult)
    requires NoNewline(fr.name) && NoNewline(fr.dir)
    ensures Occurrences(FileHeader(fr), '\n') == 4
  {
    var line := SummaryLine(fr);
    SummaryLineNoNewline(fr);
    NewlineCount();
    OccurrencesAppend("\n", "\n", '\n');
    assert "\n\n" == "\n" + "\n";
    NewlinesAfter(line, "\n\n", 2);
    DelimiterNewlines();
    OccurrencesAppend(Delimiter(), line + "\n\n", '\n');
    assert FileHeader(fr) == Delimiter() + (line + "\n\n");
  }

  /** When no name, directory or rendered line holds a newline, the entries
      take four header lines each and one line per rendered line. */
  lemma {:induction false} SectionsNewlines(found: seq<FileResult>)
    requires SingleLineEntries(found)
    ensures Occurrences(Sections(found), '\n') == SectionLineCount(found)
  {
    if found != [] {
      var init, fr := found[..|found| - 1], found[|found| - 1];
      assert found == init + [fr];
      SectionsNewlines(init);
      FileHeaderNewlines(fr);
      BodyNewlines(fr.lines);
      OccurrencesAppend(Sections(init), FileHeader(fr), '\n');
      OccurrencesAppend(Sections(init) + FileHeader(fr), Body(fr.lines), '\n');
    }
  }

  lemma TotalHeaderNewlines(total: nat, lines: nat)
    ensures Occurrences(TotalHeader(total, lines), '\n') == 1
  {
    var dt, dl := DecimalString(total), DecimalString(lines);
    DigitsNoNewline(dt);
    DigitsNoNewline(dl);
    NewlineCount();
    if total == lines {
      NewlinesAfter(dt, "\n", 1);
      NewlinesAfter(TotalPrefix, dt + "\n", 1);
    } else {
      NewlinesAfter(" lines", "\n", 1);
      assert " lines\n" == " lines" + "\n";
      NewlinesAfter(dl, " lines\n", 1);
      NewlinesAfter(" in ", dl + " lines\n", 1);
      NewlinesAfter(dt, " in " + (dl + " lines\n"), 1);
      NewlinesAfter(TotalPrefix, dt + (" in " + (dl + " lines\n")), 1);
    }
  }

  /** When no name, directory or rendered line holds a newline, the report
      has one header line and, per file, four header lines and one line per
      rendered line. */
  lemma ReportNewlines(r: SearchResult)
    requires SingleLineEntries(r.found)
    ensures Occurrences(ReportText(r), '\n') == 1 + SectionLineCount(r.found)
  {
    TotalHeaderNewlines(r.total, r.lines);
    SectionsNewlines(r.found);
    OccurrencesAppend(TotalHeader(r.total, r.lines), Sections(r.found), '\n');
  }
}
