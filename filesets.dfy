/** Building the list of documents to search: expanding a directory into its
    PDF files (`dirPDFs`), dropping files whose name starts with the exclusion
    mask (`filterList`), sorting by a collation key (`sortList`) and the three
    combined (`normalizeFileList`). */
module FileSets {
  import opened Wrappers
  import opened Seqs
  import opened Text
  import opened Paths

  /** What the script asks the file system: which paths are regular files
      (`os.path.isfile`), which are directories, and each directory's
      entries in listing order (`os.path.isdir`, `os.listdir`). */
  datatype FileSystem = FileSystem(files: set<string>, dirs: map<string, seq<string>>)

  /** Longer than three characters and ending in ".pdf" in any letter case. */
  predicate IsPdfName(f: string) {
    |f| > 3 && LowerString(f[|f| - 4..]) == ".pdf"
  }

  lemma PdfNameIff(f: string)
    ensures IsPdfName(f) <==>
      && |f| >= 4
      && f[|f| - 4] == '.'
      && (f[|f| - 3] == 'p' || f[|f| - 3] == 'P')
      && (f[|f| - 2] == 'd' || f[|f| - 2] == 'D')
      && (f[|f| - 1] == 'f' || f[|f| - 1] == 'F')
  {
    if |f| >= 4 {
      var t := LowerString(f[|f| - 4..]);
      assert t == ".pdf" <==> t[0] == '.' && t[1] == 'p' && t[2] == 'd' && t[3] == 'f';
    }
  }

  /** The entry test of `dirPDFs`: a regular file with a PDF name. */
  function Qualifier(fs: FileSystem, directory: string): string -> bool {
    f => Join(directory, f) in fs.files && IsPdfName(f)
  }

  function Joiner(directory: string): string -> string {
    f => Join(directory, f)
  }

  /** The PDF files of a directory, joined onto it, in listing order. */
  function PdfsOf(fs: FileSystem, directory: string): seq<string>
    requires directory in fs.dirs
  {
    Map(Filter(fs.dirs[directory], Qualifier(fs, directory)), Joiner(directory))
  }

  /** One entry of the listing: appended, joined, exactly when it qualifies. */
  lemma PdfsStep(fs: FileSystem, directory: string, i: nat, acc: seq<string>)
    requires directory in fs.dirs && i < |fs.dirs[directory]|
    requires acc == Map(Filter(fs.dirs[directory][..i], Qualifier(fs, directory)), Joiner(directory))
    ensures var f := fs.dirs[directory][i];
      Map(Filter(fs.dirs[directory][..i + 1], Qualifier(fs, directory)), Joiner(directory)) ==
        if Join(directory, f) in fs.files && IsPdfName(f) then acc + [Join(directory, f)] else acc
  {
    var entries, f := fs.dirs[directory], fs.dirs[directory][i];
    if Join(directory, f) in fs.files && IsPdfName(f) {
      assert Qualifier(fs, directory)(f) && Joiner(directory)(f) == Join(directory, f);
      MapFilterKeep(entries, i, Qualifier(fs, directory), Joiner(directory), acc);
    } else {
      assert !Qualifier(fs, directory)(f);
      MapFilterSkip(entries, i, Qualifier(fs, directory), Joiner(directory), acc);
    }
  }

  /** `dirPDFs`: one pass over the listing, appending each qualifying entry. */
  method DirPdfs(fs: FileSystem, directory: string) returns (result: seq<string>)
    requires directory in fs.dirs
    ensures result == PdfsOf(fs, directory)
  {
    var entries := fs.dirs[directory];
    result := [];
    var i := 0;
    while i < |entries|
      invariant 0 <= i <= |entries|
      invariant result == Map(Filter(entries[..i], Qualifier(fs, directory)), Joiner(directory))
    {
      var f := entries[i];
      PdfsStep(fs, directory, i, result);
      if Join(directory, f) in fs.files && IsPdfName(f) {
        result := result + [Join(directory, f)];
      }
      i := i + 1;
    }
    assert entries[..|entries|] == entries;
  }

  /** A directory contributes exactly its own entries that are regular files
      with a PDF name, each joined onto the directory: nothing from deeper
      levels, since only the directory's own listing is consulted. */
  lemma PdfsOfMembers(fs: FileSystem, directory: string, p: string)
    requires directory in fs.dirs
    ensures p in PdfsOf(fs, directory) <==>
      exists f :: f in fs.dirs[directory] && IsPdfName(f) && Join(directory, f) in fs.files
               && p == Join(directory, f)
  {
    var kept := Filter(fs.dirs[directory], Qualifier(fs, directory));
    MapMembers(kept, Joiner(directory), p);
    forall f ensures f in kept <==> f in fs.dirs[directory] && Qualifier(fs, directory)(f) {
      FilterMembers(fs.dirs[directory], Qualifier(fs, directory), f);
    }
  }

  /** Whether a mask has been given and is non-empty (Python truthiness of
      `NOT_IN`, which starts as `None`). */
  predicate MaskSet(mask: Option<string>) {
    mask.Some? && mask.value != []
  }

  /** The test of `filterList`: the base name is shorter than the mask, or
      its first `|mask|` characters differ from it. */
  predicate MaskKeeps(mask: string, path: string) {
    var b := Basename(path);
    |b| < |mask| || b[..|mask|] != mask
  }

  lemma MaskKeepsIff(mask: string, path: string)
    ensures MaskKeeps(mask, path) <==> !(mask <= Basename(path))
  {
  }

  function MaskTest(mask: string): string -> bool {
    p => MaskKeeps(mask, p)
  }

  function KeptByMask(fileList: seq<string>, mask: string): seq<string> {
    Filter(fileList, MaskTest(mask))
  }

  /** `filterList`: keeps, in order, the paths whose base name does not start
      with the mask. */
  method FilterList(fileList: seq<string>, mask: string) returns (temp: seq<string>)
    ensures temp == KeptByMask(fileList, mask)
  {
    var chklen := |mask|;
    temp := [];
    var i := 0;
    while i < |fileList|
      invariant 0 <= i <= |fileList|
      invariant temp == Filter(fileList[..i], MaskTest(mask))
    {
      var f := fileList[i];
      var basename := Basename(f);
      if |basename| < chklen || basename[..chklen] != mask {
        assert MaskTest(mask)(f);
        FilterKeep(fileList, i, MaskTest(mask), temp);
        temp := temp + [f];
      } else {
        assert !MaskTest(mask)(f);
        FilterSkip(fileList, i, MaskTest(mask), temp);
      }
      i := i + 1;
    }
    assert fileList[..|fileList|] == fileList;
  }

  /** The mask filter keeps the order of its input and exactly the paths
      whose base name the mask does not prefix. */
  lemma KeptByMaskSpec(fileList: seq<string>, mask: string, more: seq<string>)
    ensures KeptByMask(fileList + more, mask) == KeptByMask(fileList, mask) + KeptByMask(more, mask)
    ensures forall p :: p in KeptByMask(fileList, mask) <==> p in fileList && !(mask <= Basename(p))
  {
    FilterAppend(fileList, more, MaskTest(mask));
    forall p ensures p in KeptByMask(fileList, mask) <==> p in fileList && !(mask <= Basename(p)) {
      FilterMembers(fileList, MaskTest(mask), p);
    }
  }

  /** Ordered by the collation key, compared as Python compares strings. */
  ghost predicate SortedBy(s: seq<string>, key: string -> string) {
    forall i, j :: 0 <= i < j < |s| ==> LexLe(key(s[i]), key(s[j]))
  }

  /** Places `x` before the first element whose key is not below its own. */
  function Insert(x: string, s: seq<string>, key: string -> string): seq<string> {
    if s == [] || LexLe(key(x), key(s[0])) then [x] + s
    else [s[0]] + Insert(x, s[1..], key)
  }

  /** `sortList`: a stable sort by the injected collation key (the locale's
      `strxfrm` in the script). */
  function SortList(data: seq<string>, key: string -> string): seq<string> {
    if data == [] then [] else Insert(data[0], SortList(data[1..], key), key)
  }

  lemma {:induction false} InsertPermutes(x: string, s: seq<string>, key: string -> string)
    ensures multiset(Insert(x, s, key)) == multiset(s) + multiset{x}
    decreases |s|
  {
    if s != [] && !LexLe(key(x), key(s[0])) {
      InsertPermutes(x, s[1..], key);
      assert s == [s[0]] + s[1..];
    }
  }

  /** Everything in the tail of the insertion comes after `s[0]` in order. */
  lemma AfterHead(x: string, s: seq<string>, key: string -> string)
    requires s != [] && SortedBy(s, key) && LexLe(key(s[0]), key(x))
    ensures forall j :: 0 <= j < |Insert(x, s[1..], key)| ==> LexLe(key(s[0]), key(Insert(x, s[1..], key)[j]))
  {
    var t := Insert(x, s[1..], key);
    InsertPermutes(x, s[1..], key);
    forall j | 0 <= j < |t| ensures LexLe(key(s[0]), key(t[j])) {
      assert t[j] in multiset(t);
      if t[j] != x {
        assert t[j] in s[1..];
        var k :| 0 <= k < |s[1..]| && s[1..][k] == t[j];
        assert s[k + 1] == t[j];
      }
    }
  }

  lemma {:induction false} InsertSorted(x: string, s: seq<string>, key: string -> string)
    requires SortedBy(s, key)
    ensures SortedBy(Insert(x, s, key), key)
    decreases |s|
  {
    var r := Insert(x, s, key);
    if s == [] {
    } else if LexLe(key(x), key(s[0])) {
      forall j | 0 < j < |r| ensures LexLe(key(r[0]), key(r[j])) {
        if j > 1 {
          LexLeTransitive(key(x), key(s[0]), key(s[j - 1]));
        }
      }
    } else {
      LexLeTotal(key(x), key(s[0]));
      assert SortedBy(s[1..], key);
      InsertSorted(x, s[1..], key);
      AfterHead(x, s, key);
      var t := Insert(x, s[1..], key);
      assert r == [s[0]] + t;
      forall i, j | 0 <= i < j < |r| ensures LexLe(key(r[i]), key(r[j])) {
        if i == 0 {
          assert r[i] == s[0] && r[j] == t[j - 1];
          assert LexLe(key(s[0]), key(t[j - 1]));
        } else {
          assert r[i] == t[i - 1] && r[j] == t[j - 1];
          assert LexLe(key(t[i - 1]), key(t[j - 1]));
        }
      }
    }
  }

  lemma InsertSpec(x: string, s: seq<string>, key: string -> string)
    requires SortedBy(s, key)
    ensures SortedBy(Insert(x, s, key), key)
    ensures multiset(Insert(x, s, key)) == multiset(s) + multiset{x}
  {
    InsertSorted(x, s, key);
    InsertPermutes(x, s, key);
  }

  /** The sort yields a collation-ordered permutation of its input. */
  lemma {:induction false} SortListSpec(data: seq<string>, key: string -> string)
    ensures SortedBy(SortList(data, key), key)
    ensures multiset(SortList(data, key)) == multiset(data)
    decreases |data|
  {
    if data != [] {
      SortListSpec(data[1..], key);
      InsertSpec(data[0], SortList(data[1..], key), key);
      assert data == [data[0]] + data[1..];
    }
  }

  /** Whether a path escapes the mask filter (always, when no mask is set). */
  predicate Survives(mask: Option<string>, path: string) {
    MaskSet(mask) ==> MaskKeeps(mask.value, path)
  }

  /** `normalizeFileList`: drop duplicates, filter by the mask only when one
      is set, sort. */
  function NormalizeFileList(files: seq<string>, mask: Option<string>, key: string -> string): seq<string> {
    var unique := Dedup(files);
    SortList(if MaskSet(mask) then KeptByMask(unique, mask.value) else unique, key)
  }

  /** The normalized list holds every surviving input path exactly once, and
      nothing else, in collation order. */
  lemma NormalizeFileListSpec(files: seq<string>, mask: Option<string>, key: string -> string)
    ensures var r := NormalizeFileList(files, mask, key);
      && SortedBy(r, key)
      && Distinct(r)
      && (forall p :: p in r <==> p in files && Survives(mask, p))
      && (forall p :: p in r ==> multiset(r)[p] == 1)
  {
    var unique := Dedup(files);
    var kept := if MaskSet(mask) then KeptByMask(unique, mask.value) else unique;
    if MaskSet(mask) {
      FilterKeepsDistinct(unique, MaskTest(mask.value));
    }
    assert Distinct(kept);
    forall p ensures p in kept <==> p in files && Survives(mask, p) {
      if MaskSet(mask) {
        FilterMembers(unique, MaskTest(mask.value), p);
      }
    }
    var r := SortList(kept, key);
    SortListSpec(kept, key);
    DistinctIffSingleOccurrences(kept);
    forall p ensures p in r <==> p in kept {
      assert p in r <==> p in multiset(r);
    }
    DistinctIffSingleOccurrences(r);
  }
}
