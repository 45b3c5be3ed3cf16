/** Searching extracted text (`positionLabel`, `searchInText`) and collecting
    the per-file results (`doSearch`). The regular expression is given as a
    function `count` from a line to the number of `findall` results on it,
    and the text extractor as a function `extract` from a path to its lines. */
module Search {
  import opened Wrappers
  import opened Seqs
  import opened Text
  import opened Paths

  /** The position of line `index` out of `n`, as a whole percentage
      (`100.0 * index / n`, truncated by `%d`). */
  function Percent(n: nat, index: nat): nat
    requires n > 0
  {
    100 * index / n
  }

  lemma MulLe(a: int, b: int, n: nat)
    ensures a <= b ==> a * n <= b * n
  {
  }

  lemma PercentBelow100(n: nat, index: nat)
    requires index < n
    ensures Percent(n, index) <= 99
  {
    var p := Percent(n, index);
    assert p * n <= 100 * index;
    MulLe(100, p, n);
  }

  lemma PercentMonotone(n: nat, i: nat, j: nat)
    requires 0 < n && i <= j
    ensures Percent(n, i) <= Percent(n, j)
  {
    var p, q := Percent(n, i), Percent(n, j);
    assert p * n <= 100 * i <= 100 * j < (q + 1) * n;
    MulLe(q + 1, p, n);
  }

  /** `positionLabel`: the percentage right-justified in two columns. */
  function PositionLabel(n: nat, index: nat): string
    requires n > 0
  {
    "(" + PadLeft(DecimalString(Percent(n, index)), 2) + "%) "
  }

  /** Reads the percentage back out of a label. */
  function LabelValue(text: string): Option<nat> {
    if |text| >= 4 && text[0] == '(' && text[|text| - 3..] == "%) " then
      var digits := TrimLeft(text[1..|text| - 3]);
      if digits != [] && AllDigits(digits) then Some(DigitsValue(digits)) else None
    else None
  }

  lemma LabelValueOf(pad: string, v: nat)
    requires TrimLeft(pad) == DecimalString(v)
    ensures LabelValue("(" + pad + "%) ") == Some(v)
  {
    var text := "(" + pad + "%) ";
    assert text[1..|text| - 3] == pad;
    assert text[|text| - 3..] == "%) ";
    DecimalRoundTrip(v);
  }

  /** Every label carries its line's percentage; within the text it is six
      characters wide and its value lies in 0..99. */
  lemma LabelRoundTrip(n: nat, index: nat)
    requires n > 0
    ensures LabelValue(PositionLabel(n, index)) == Some(Percent(n, index))
    ensures index < n ==> |PositionLabel(n, index)| == 6 && Percent(n, index) <= 99
  {
    var ds := DecimalString(Percent(n, index));
    TrimPadding(ds, 2);
    LabelValueOf(PadLeft(ds, 2), Percent(n, index));
    if index < n {
      PercentBelow100(n, index);
    }
  }

  lemma TrimPadding(s: string, width: nat)
    requires s != [] && s[0] != ' '
    ensures TrimLeft(PadLeft(s, width)) == s
  {
    TrimSpaces(if |s| < width then width - |s| else 0, s);
    assert PadLeft(s, width) == Spaces(if |s| < width then width - |s| else 0) + s;
  }

  lemma {:induction false} TrimSpaces(k: nat, s: string)
    requires s == [] || s[0] != ' '
    ensures TrimLeft(Spaces(k) + s) == s
  {
    if k > 0 {
      assert (Spaces(k) + s)[1..] == Spaces(k - 1) + s;
      TrimSpaces(k - 1, s);
    } else {
      assert Spaces(k) + s == s;
    }
  }

  /** The first line is labelled "( 0%) ". */
  lemma FirstLabel(n: nat)
    requires n > 0
    ensures PositionLabel(n, 0) == "( 0%) "
  {
    assert Percent(n, 0) == 0;
    assert DecimalString(0) == "0";
    assert PadLeft("0", 2) == " 0";
  }

  /** Labels never go down as the line index grows. */
  lemma LabelsNonDecreasing(n: nat, i: nat, j: nat)
    requires i <= j < n
    ensures LabelValue(PositionLabel(n, i)).Some? && LabelValue(PositionLabel(n, j)).Some?
    ensures LabelValue(PositionLabel(n, i)).value <= LabelValue(PositionLabel(n, j)).value
  {
    LabelRoundTrip(n, i);
    LabelRoundTrip(n, j);
    PercentMonotone(n, i, j);
  }

  /** A matching line as `searchInText` renders it: behind its label. */
  function RenderLine(lines: seq<string>, index: nat): string
    requires index < |lines|
  {
    PositionLabel(|lines|, index) + lines[index]
  }

  /** The `result` dict of `searchInText`. */
  datatype TextResult = TextResult(lines: seq<string>, hits: nat)

  /** The indices, in increasing order, of the first `k` lines that match. */
  function HitIndices(lines: seq<string>, count: string -> nat, k: nat): seq<nat>
    requires k <= |lines|
  {
    if k == 0 then []
    else HitIndices(lines, count, k - 1) + (if count(lines[k - 1]) > 0 then [k - 1] else [])
  }

  /** The number of matches on the first `k` lines. */
  function HitCount(lines: seq<string>, count: string -> nat, k: nat): nat
    requires k <= |lines|
  {
    if k == 0 then 0 else HitCount(lines, count, k - 1) + count(lines[k - 1])
  }

  /** The lines at the indices `idx`, each rendered. `Scan` passes only
      the indices of `HitIndices`, which `HitIndicesSpec` bounds by the
      number of lines, so the empty string for an index past the end is
      never produced there. */
  function Rendering(lines: seq<string>, idx: seq<nat>): (r: seq<string>)
    ensures |r| == |idx|
  {
    if idx == [] then []
    else
      var i := idx[|idx| - 1];
      Rendering(lines, idx[..|idx| - 1]) + [if i < |lines| then RenderLine(lines, i) else ""]
  }

  /** What `searchInText` has gathered after the first `k` lines: every
      matching line rendered, in order, and the number of matches. */
  function Scan(lines: seq<string>, count: string -> nat, k: nat): TextResult
    requires k <= |lines|
  {
    TextResult(Rendering(lines, HitIndices(lines, count, k)), HitCount(lines, count, k))
  }

  /** A line with matches adds its rendering and its matches. */
  lemma ScanHit(lines: seq<string>, count: string -> nat, k: nat)
    requires k < |lines| && count(lines[k]) > 0
    ensures Scan(lines, count, k + 1) ==
      TextResult(Scan(lines, count, k).lines + [RenderLine(lines, k)], Scan(lines, count, k).hits + count(lines[k]))
  {
    var h := HitIndices(lines, count, k);
    assert HitIndices(lines, count, k + 1) == h + [k];
    assert (h + [k])[..|h + [k]| - 1] == h;
  }

  /** A line without matches changes nothing. */
  lemma ScanMiss(lines: seq<string>, count: string -> nat, k: nat)
    requires k < |lines| && count(lines[k]) == 0
    ensures Scan(lines, count, k + 1) == Scan(lines, count, k)
  {
    var h := HitIndices(lines, count, k);
    assert HitIndices(lines, count, k + 1) == h + [] == h;
  }

  /** `searchInText` */
  method SearchInText(lines: seq<string>, count: string -> nat) returns (result: TextResult)
    ensures result == Scan(lines, count, |lines|)
  {
    result := TextResult([], 0);
    var index := 0;
    while index < |lines|
      invariant 0 <= index <= |lines|
      invariant result == Scan(lines, count, index)
    {
      var line := lines[index];
      var found := count(line);
      if found > 0 {
        ScanHit(lines, count, index);
        result := result.(hits := result.hits + found,
                          lines := result.lines + [RenderLine(lines, index)]);
      } else {
        ScanMiss(lines, count, index);
      }
      index := index + 1;
    }
  }

  /** The hit indices are increasing, below `k`, and are exactly the lines
      with at least one match. */
  lemma {:induction false} HitIndicesSpec(lines: seq<string>, count: string -> nat, k: nat)
    requires k <= |lines|
    ensures var h := HitIndices(lines, count, k);
      && (forall j :: 0 <= j < |h| ==> h[j] < k)
      && (forall j, j' :: 0 <= j < j' < |h| ==> h[j] < h[j'])
      && (forall i :: 0 <= i < k ==> (i in h <==> count(lines[i]) > 0))
  {
    if k > 0 {
      HitIndicesSpec(lines, count, k - 1);
    }
  }

  lemma {:induction false} RenderingAt(lines: seq<string>, idx: seq<nat>, j: nat)
    requires j < |idx| && idx[j] < |lines|
    ensures Rendering(lines, idx)[j] == RenderLine(lines, idx[j])
    decreases |idx|
  {
    if j < |idx| - 1 {
      RenderingAt(lines, idx[..|idx| - 1], j);
    }
  }

  /** Exactly the matching lines are rendered, in text order, each behind its
      position label. */
  lemma ScanRendersHits(lines: seq<string>, count: string -> nat, k: nat)
    requires k <= |lines|
    ensures |Scan(lines, count, k).lines| == |HitIndices(lines, count, k)|
    ensures var r, h := Scan(lines, count, k), HitIndices(lines, count, k);
      forall j :: 0 <= j < |h| ==> h[j] < k && r.lines[j] == RenderLine(lines, h[j])
  {
    HitIndicesSpec(lines, count, k);
    var h := HitIndices(lines, count, k);
    forall j | 0 <= j < |h|
      ensures Scan(lines, count, k).lines[j] == RenderLine(lines, h[j])
    {
      RenderingAt(lines, h, j);
    }
  }

  lemma {:induction false} HitIndicesCounted(lines: seq<string>, count: string -> nat, k: nat)
    requires k <= |lines|
    ensures |HitIndices(lines, count, k)| <= HitCount(lines, count, k)
    ensures HitCount(lines, count, k) == 0 <==> HitIndices(lines, count, k) == []
  {
    if k > 0 {
      HitIndicesCounted(lines, count, k - 1);
      var h := HitIndices(lines, count, k - 1);
      if count(lines[k - 1]) > 0 {
        assert HitIndices(lines, count, k) == h + [k - 1];
      } else {
        assert HitIndices(lines, count, k) == h + [] == h;
      }
    }
  }

  /** The hits are at least the rendered lines, and there are none exactly
      when nothing is rendered. */
  lemma ScanCounts(lines: seq<string>, count: string -> nat, k: nat)
    requires k <= |lines|
    ensures |Scan(lines, count, k).lines| <= Scan(lines, count, k).hits
    ensures Scan(lines, count, k).hits == 0 <==> Scan(lines, count, k).lines == []
  {
    HitIndicesCounted(lines, count, k);
  }

  /** One entry of `found` in `doSearch`. */
  datatype FileResult = FileResult(lines: seq<string>, hits: nat, name: string, dir: string)

  /** The value `doSearch` returns. */
  datatype SearchResult = SearchResult(total: nat, lines: nat, found: seq<FileResult>)

  /** The entry `doSearch` would record for one file. */
  function Searched(extract: string -> seq<string>, count: string -> nat, f: string): FileResult {
    var r := Scan(extract(f), count, |extract(f)|);
    FileResult(r.lines, r.hits, Basename(f), Dirname(f))
  }

  function FileOutcome(extract: string -> seq<string>, count: string -> nat): string -> FileResult {
    f => Searched(extract, count, f)
  }

  /** A file's entry never has more lines than hits, and has lines exactly
      when it has hits. */
  predicate Consistent(fr: FileResult) {
    |fr.lines| <= fr.hits && (fr.hits == 0 <==> fr.lines == [])
  }

  lemma SearchedConsistent(extract: string -> seq<string>, count: string -> nat, f: string)
    ensures Consistent(Searched(extract, count, f))
  {
    ScanCounts(extract(f), count, |extract(f)|);
  }

  /** One file's step of `doSearch`: its hits go into `total`; a file with
      hits also adds its rendered lines to `lines` and its entry to `found`. */
  function Extend(r: SearchResult, fr: FileResult): SearchResult {
    if fr.hits > 0 then SearchResult(r.total + fr.hits, r.lines + |fr.lines|, r.found + [fr])
    else r.(total := r.total + fr.hits)
  }

  /** What `doSearch` accumulates from the per-file entries `rs`, in order. */
  function Collect(rs: seq<FileResult>): SearchResult {
    if rs == [] then SearchResult(0, 0, [])
    else Extend(Collect(rs[..|rs| - 1]), rs[|rs| - 1])
  }

  lemma CollectStep(files: seq<string>, i: nat, outcome: string -> FileResult)
    requires i < |files|
    ensures Collect(Map(files[..i + 1], outcome)) == Extend(Collect(Map(files[..i], outcome)), outcome(files[i]))
  {
    MapPrefixStep(files, i, outcome);
    var rs := Map(files[..i], outcome);
    assert (rs + [outcome(files[i])])[..|rs|] == rs;
  }

  /** One file of `doSearch`: its entry, which is consistent, extends what
      the earlier files accumulated. */
  lemma DoSearchStep(files: seq<string>, i: nat, extract: string -> seq<string>, count: string -> nat)
    requires i < |files|
    ensures Consistent(Searched(extract, count, files[i]))
    ensures Collect(Map(files[..i + 1], FileOutcome(extract, count))) ==
      Extend(Collect(Map(files[..i], FileOutcome(extract, count))), Searched(extract, count, files[i]))
  {
    assert Searched(extract, count, files[i]) == FileOutcome(extract, count)(files[i]);
    SearchedConsistent(extract, count, files[i]);
    CollectStep(files, i, FileOutcome(extract, count));
  }

  /** `doSearch` */
  method DoSearch(files: seq<string>, extract: string -> seq<string>, count: string -> nat)
    returns (result: SearchResult)
    ensures result == Collect(Map(files, FileOutcome(extract, count)))
    ensures result.lines <= result.total
  {
    result := SearchResult(0, 0, []);
    var i := 0;
    while i < |files|
      invariant 0 <= i <= |files|
      invariant result == Collect(Map(files[..i], FileOutcome(extract, count)))
      invariant result.lines <= result.total
    {
      var f := files[i];
      var text := SearchInText(extract(f), count);
      var entry := FileResult(text.lines, text.hits, Basename(f), Dirname(f));
      DoSearchStep(files, i, extract, count);
      result := result.(total := result.total + entry.hits);
      if entry.hits > 0 {
        result := result.(lines := result.lines + |entry.lines|, found := result.found + [entry]);
      }
      i := i + 1;
    }
    assert files[..|files|] == files;
  }

  function SumHits(found: seq<FileResult>): nat {
    if found == [] then 0 else SumHits(found[..|found| - 1]) + found[|found| - 1].hits
  }

  function SumLines(found: seq<FileResult>): nat {
    if found == [] then 0 else SumLines(found[..|found| - 1]) + |found[|found| - 1].lines|
  }

  /** Whether a file had any hits (`if result['hits']`). */
  predicate IsHit(fr: FileResult) {
    fr.hits > 0
  }

  /** `found` keeps, in order, exactly the entries with hits. */
  lemma {:induction false} CollectFound(rs: seq<FileResult>)
    ensures Collect(rs).found == Filter(rs, IsHit)
  {
    if rs != [] {
      CollectFound(rs[..|rs| - 1]);
    }
  }

  lemma {:induction false} CollectSums(rs: seq<FileResult>)
    ensures Collect(rs).total == SumHits(Collect(rs).found)
    ensures Collect(rs).lines == SumLines(Collect(rs).found)
  {
    if rs != [] {
      var rs' := rs[..|rs| - 1];
      CollectSums(rs');
      var found0, fr := Collect(rs').found, rs[|rs| - 1];
      if fr.hits > 0 {
        assert (found0 + [fr])[..|found0 + [fr]| - 1] == found0;
      }
    }
  }

  /** An entry that `doSearch` keeps: it has hits, and lines to show. */
  predicate ShownEntry(fr: FileResult) {
    0 < |fr.lines| <= fr.hits
  }

  lemma {:induction false} CollectFoundEntries(rs: seq<FileResult>)
    requires forall fr :: fr in rs ==> Consistent(fr)
    ensures forall fr :: fr in Collect(rs).found ==> ShownEntry(fr)
  {
    if rs != [] {
      var rs' := rs[..|rs| - 1];
      assert rs == rs' + [rs[|rs| - 1]] && rs[|rs| - 1] in rs;
      CollectFoundEntries(rs');
    }
  }

  lemma {:induction false} SumLinesBelowHits(found: seq<FileResult>)
    requires forall fr :: fr in found ==> ShownEntry(fr)
    ensures SumLines(found) <= SumHits(found)
  {
    if found != [] {
      var found' := found[..|found| - 1];
      assert found == found' + [found[|found| - 1]] && found[|found| - 1] in found;
      SumLinesBelowHits(found');
    }
  }

  /** Entries without hits add nothing, so the totals are the sums over
      `found`; with consistent entries the lines never exceed the hits. */
  lemma CollectTotals(rs: seq<FileResult>)
    requires forall fr :: fr in rs ==> Consistent(fr)
    ensures var r := Collect(rs);
      && r.total == SumHits(r.found)
      && r.lines == SumLines(r.found)
      && r.lines <= r.total
      && (forall fr :: fr in r.found ==> ShownEntry(fr))
  {
    CollectSums(rs);
    CollectFoundEntries(rs);
    SumLinesBelowHits(Collect(rs).found);
  }

  /** The search over a file list: `found` holds, in list order, the entry of
      every file with hits, and the totals agree with it. */
  lemma SearchSpec(files: seq<string>, extract: string -> seq<string>, count: string -> nat)
    ensures var rs := Map(files, FileOutcome(extract, count));
      var r := Collect(rs);
      && r.found == Filter(rs, IsHit)
      && r.total == SumHits(r.found)
      && r.lines == SumLines(r.found)
      && r.lines <= r.total
      && (forall fr :: fr in r.found ==> ShownEntry(fr))
  {
    var rs := Map(files, FileOutcome(extract, count));
    forall fr | fr in rs ensures Consistent(fr) {
      MapMembers(files, FileOutcome(extract, count), fr);
      var f :| f in files && fr == FileOutcome(extract, count)(f);
      SearchedConsistent(extract, count, f);
    }
    CollectFound(rs);
    CollectTotals(rs);
  }
}
