/** `ProjectCollector.create_consolidated_code` (uniter.py:210-256): one text
    holding every collected `.py` file, each behind a banner, with files
    above the size limit and unreadable files replaced by a one-line marker.
    The generation time and the second read of each file are inputs; writing
    the output file is not modelled. */
module Consolidate {
  import opened Common
  import opened Analysis
  import opened FileSystem
  import opened Collect
  import opened Report

  const DefaultMaxFileSize: int := 50000

  /** `c * n`. */
  function Repeat(c: char, n: nat): (r: string)
    ensures |r| == n
    ensures forall k :: 0 <= k < n ==> r[k] == c
  {
    if n == 0 then "" else Repeat(c, n - 1) + [c]
  }

  /** `'=' * 50`. */
  const Rule: string := Repeat('=', 50)

  /** The docstring-style preamble with the number of `.py` files. */
  function Preamble(timestamp: string, count: nat): string
  {
    CountLead(timestamp) + NatToString(count) + "\n\nСТРУКТУРА:\n\"\"\"\n\n"
  }

  /** The preamble up to the count: the opening quotes, the title, the date
      line and the `Файлов: ` label. */
  function CountLead(timestamp: string): string
  {
    "\"\"\"\n=== ОБЪЕДИНЕННЫЙ КОД ПРОЕКТА ===\nДата: " + timestamp + "\nФайлов: "
  }

  function FunctionNames(fs: seq<FunctionInfo>): seq<string>
  {
    Map((fn: FunctionInfo) => fn.name, fs)
  }

  function ClassNames(cs: seq<ClassInfo>): seq<string>
  {
    Map((c: ClassInfo) => c.name, cs)
  }

  const FunctionsPrefix := "# ФУНКЦИИ: "
  const ClassesPrefix := "# КЛАССЫ: "

  /** The `ФУНКЦИИ` line: present when the analysis lists functions (an
      error record has none). */
  function FunctionsLine(f: FileInfo): string
  {
    if FunctionsOf(f) != [] then FunctionsPrefix + Join(", ", FunctionNames(FunctionsOf(f))) + "\n" else ""
  }

  function ClassesLine(f: FileInfo): string
  {
    if ClassesOf(f) != [] then ClassesPrefix + Join(", ", ClassNames(ClassesOf(f))) + "\n" else ""
  }

  /** The rule, path and size lines that open a banner. */
  function BannerTop(f: FileInfo): string
  {
    "# " + Rule + "\n" + "# ФАЙЛ: " + f.path + "\n" + "# РАЗМЕР: " + NatToString(f.size) + " байт\n"
  }

  const BannerBottom := "# " + Rule + "\n\n"

  /** The banner written before the content of a readable file. */
  function Banner(f: FileInfo): string
  {
    BannerTop(f) + FunctionsLine(f) + ClassesLine(f) + BannerBottom
  }

  function TooLargeMarker(f: FileInfo): string
  {
    "# === " + f.path + " === [ФАЙЛ СЛИШКОМ БОЛЬШОЙ: " + NatToString(f.size) + " байт]\n\n"
  }

  function ReadErrorMarker(f: FileInfo, message: string): string
  {
    "# === " + f.path + " === [ОШИБКА ЧТЕНИЯ: " + message + "]\n\n"
  }

  /** What one `.py` file contributes. `read` is the second read of the file
      by its path, with the exception text on failure. */
  function FileBlock(f: FileInfo, maxFileSize: int, read: string -> Result<string, string>): string
  {
    if f.size > maxFileSize then TooLargeMarker(f)
    else match read(f.path)
      case Err(message) => ReadErrorMarker(f, message)
      case Ok(content) => Banner(f) + content + "\n\n"
  }

  /** What `create_consolidated_code` returns. */
  function ConsolidatedCode(c: Collector, root: FsDir, timestamp: string, maxFileSize: int,
                            read: string -> Result<string, string>): string
  {
    var py := PythonFiles(CollectedFiles(c, root, []));
    Preamble(timestamp, |py|) + Blocks(py, maxFileSize, read)
  }

  /** The blocks of `py`, in order. */
  function Blocks(py: seq<FileInfo>, maxFileSize: int, read: string -> Result<string, string>): string
  {
    if py == [] then "" else Blocks(py[..|py| - 1], maxFileSize, read) + FileBlock(py[|py| - 1], maxFileSize, read)
  }

  lemma BlocksStep(start: string, py: seq<FileInfo>, i: nat, maxFileSize: int, read: string -> Result<string, string>)
    requires i < |py|
    ensures start + Blocks(py[..i], maxFileSize, read) + FileBlock(py[i], maxFileSize, read)
         == start + Blocks(py[..i + 1], maxFileSize, read)
  {
    assert py[..i + 1][..i] == py[..i];
    Assoc(start, Blocks(py[..i], maxFileSize, read), FileBlock(py[i], maxFileSize, read));
  }

  method CreateConsolidatedCode(c: Collector, root: FsDir, timestamp: string, maxFileSize: int,
                                read: string -> Result<string, string>) returns (consolidated: string)
    ensures consolidated == ConsolidatedCode(c, root, timestamp, maxFileSize, read)
  {
    var collected := CollectFiles(c, root, []);
    var pythonFiles := PythonFiles(collected);
    consolidated := Preamble(timestamp, |pythonFiles|);
    ghost var start := consolidated;
    for i := 0 to |pythonFiles|
      invariant consolidated == start + Blocks(pythonFiles[..i], maxFileSize, read)
    {
      BlocksStep(start, pythonFiles, i, maxFileSize, read);
      consolidated := AppendFile(consolidated, pythonFiles[i], maxFileSize, read);
    }
    assert pythonFiles[..|pythonFiles|] == pythonFiles;
  }

  /** The body of the loop over `python_files` for one file. */
  method AppendFile(consolidated: string, fileInfo: FileInfo, maxFileSize: int,
                    read: string -> Result<string, string>) returns (r: string)
    ensures r == consolidated + FileBlock(fileInfo, maxFileSize, read)
  {
    if fileInfo.size > maxFileSize {
      r := consolidated + TooLargeMarker(fileInfo);
    } else {
      var contents := read(fileInfo.path);
      if contents.Err? {
        r := consolidated + ReadErrorMarker(fileInfo, contents.error);
      } else {
        r := AppendBanner(consolidated, fileInfo);
        r := r + contents.value + "\n\n";
        assert FileBlock(fileInfo, maxFileSize, read) == Banner(fileInfo) + contents.value + "\n\n";
        Regroup(consolidated, Banner(fileInfo), contents.value, "\n\n");
      }
    }
  }

  /** The banner lines of a readable file, the `ФУНКЦИИ` and `КЛАССЫ` lines
      only when the analysis lists any. */
  method AppendBanner(consolidated: string, fileInfo: FileInfo) returns (r: string)
    ensures r == consolidated + Banner(fileInfo)
  {
    ghost var top, fl, cl := BannerTop(fileInfo), FunctionsLine(fileInfo), ClassesLine(fileInfo);
    r := consolidated + BannerTop(fileInfo);
    if FunctionsOf(fileInfo) != [] {
      r := r + FunctionsLine(fileInfo);
    } else {
      assert fl == "";
    }
    assert r == (consolidated + top) + fl;
    if ClassesOf(fileInfo) != [] {
      r := r + ClassesLine(fileInfo);
    } else {
      assert cl == "";
    }
    assert r == ((consolidated + top) + fl) + cl;
    r := r + BannerBottom;
    Assoc(consolidated, top, fl);
    Assoc(consolidated, top + fl, cl);
    Assoc(consolidated, (top + fl) + cl, BannerBottom);
  }

  // ---------------------------------------------------------------------
  // Properties

  /** A file above the limit is not opened: its block is the same whatever
      reading it would give, and names only its path and size. */
  lemma OversizeIsNotRead(f: FileInfo, maxFileSize: int, read1: string -> Result<string, string>,
                          read2: string -> Result<string, string>)
    requires f.size > maxFileSize
    ensures FileBlock(f, maxFileSize, read1) == FileBlock(f, maxFileSize, read2)
    ensures FileBlock(f, maxFileSize, read1)[..6 + |f.path|] == "# === " + f.path
  {
    var b := FileBlock(f, maxFileSize, read1);
    assert b == ("# === " + f.path) + (" === [ФАЙЛ СЛИШКОМ БОЛЬШОЙ: " + NatToString(f.size) + " байт]\n\n");
  }

  /** The limit is exclusive: a file of exactly `max_file_size` bytes is
      copied, one byte more is not. */
  lemma ThresholdIsStrict(f: FileInfo, read: string -> Result<string, string>)
    requires read(f.path).Ok?
    ensures FileBlock(f, f.size, read) == Banner(f) + read(f.path).value + "\n\n"
    ensures FileBlock(f, f.size - 1, read) == TooLargeMarker(f)
  {
  }

  /** A copied file's content stands unchanged between its banner and the
      blank line that closes the block. */
  lemma ContentKeptVerbatim(f: FileInfo, maxFileSize: int, read: string -> Result<string, string>)
    requires f.size <= maxFileSize && read(f.path).Ok?
    ensures var b := FileBlock(f, maxFileSize, read);
      |b| == |Banner(f)| + |read(f.path).value| + 2
      && b[..|Banner(f)|] == Banner(f)
      && b[|Banner(f)|..|b| - 2] == read(f.path).value
  {
    var b := FileBlock(f, maxFileSize, read);
    var content := read(f.path).value;
    assert b == Banner(f) + (content + "\n\n");
    assert (Banner(f) + (content + "\n\n"))[|Banner(f)|..] == content + "\n\n";
    assert (content + "\n\n")[..|content|] == content;
  }

  /** An unreadable file gets only the error marker with the exception's
      message: its block does not even begin with a banner. */
  lemma UnreadableGetsMarker(f: FileInfo, maxFileSize: int, read: string -> Result<string, string>)
    requires f.size <= maxFileSize && read(f.path).Err?
    ensures FileBlock(f, maxFileSize, read) == ReadErrorMarker(f, read(f.path).error)
    ensures var b := FileBlock(f, maxFileSize, read);
      !(|Banner(f)| <= |b| && b[..|Banner(f)|] == Banner(f))
  {
    var b := FileBlock(f, maxFileSize, read);
    var banner := Banner(f);
    assert b[5] == ' ';
    assert |banner| > 5 && banner[5] == Rule[3] == '=';
  }

  /** The `ФУНКЦИИ` line appears exactly when the analysis found functions,
      and the names can be read back from it in order. */
  lemma {:induction false} FunctionsLineListsNames(f: FileInfo)
    ensures FunctionsLine(f) == "" <==> FunctionsOf(f) == []
    ensures FunctionsOf(f) != [] && (forall k :: 0 <= k < |FunctionsOf(f)| ==> ',' !in FunctionsOf(f)[k].name) ==>
      var line := FunctionsLine(f);
      |line| > |FunctionsPrefix| && line[..|FunctionsPrefix|] == FunctionsPrefix
      && SplitNames(line[|FunctionsPrefix|..|line| - 1]) == FunctionNames(FunctionsOf(f))
  {
    var fs := FunctionsOf(f);
    if fs != [] && (forall k :: 0 <= k < |fs| ==> ',' !in fs[k].name) {
      var names := FunctionNames(fs);
      var joined := Join(", ", names);
      var line := FunctionsLine(f);
      assert line == FunctionsPrefix + joined + "\n";
      assert line[|FunctionsPrefix|..|line| - 1] == joined;
      SplitJoinNames(names);
    }
  }

  /** The `КЛАССЫ` line appears exactly when the analysis found classes, and
      the names can be read back from it in order. */
  lemma {:induction false} ClassesLineListsNames(f: FileInfo)
    ensures ClassesLine(f) == "" <==> ClassesOf(f) == []
    ensures ClassesOf(f) != [] && (forall k :: 0 <= k < |ClassesOf(f)| ==> ',' !in ClassesOf(f)[k].name) ==>
      var line := ClassesLine(f);
      |line| > |ClassesPrefix| && line[..|ClassesPrefix|] == ClassesPrefix
      && SplitNames(line[|ClassesPrefix|..|line| - 1]) == ClassNames(ClassesOf(f))
  {
    var cs := ClassesOf(f);
    if cs != [] && (forall k :: 0 <= k < |cs| ==> ',' !in cs[k].name) {
      var names := ClassNames(cs);
      var joined := Join(", ", names);
      var line := ClassesLine(f);
      assert line == ClassesPrefix + joined + "\n";
      assert line[|ClassesPrefix|..|line| - 1] == joined;
      SplitJoinNames(names);
    }
  }

  /** The files follow the preamble in collection order: the blocks of a
      list of files are the blocks of a first part followed by the blocks of
      the rest. */
  lemma {:induction false} BlocksInCollectionOrder(a: seq<FileInfo>, b: seq<FileInfo>, maxFileSize: int,
                                                   read: string -> Result<string, string>)
    ensures Blocks(a + b, maxFileSize, read) == Blocks(a, maxFileSize, read) + Blocks(b, maxFileSize, read)
    decreases |b|
  {
    if b == [] {
      assert a + b == a;
    } else {
      var n := |b| - 1;
      var last := FileBlock(b[n], maxFileSize, read);
      assert (a + b)[..|a + b| - 1] == a + b[..n];
      assert Blocks(a + b, maxFileSize, read) == Blocks(a + b[..n], maxFileSize, read) + last;
      assert Blocks(b, maxFileSize, read) == Blocks(b[..n], maxFileSize, read) + last;
      BlocksInCollectionOrder(a, b[..n], maxFileSize, read);
      Assoc(Blocks(a, maxFileSize, read), Blocks(b[..n], maxFileSize, read), last);
    }
  }

  /** The consolidated text states how many `.py` files follow: right after
      the `Файлов: ` label comes a run of digits, ended by a line break, that
      reads back as the number of collected records with suffix `.py`. */
  lemma PreambleCountsPythonFiles(c: Collector, root: FsDir, timestamp: string, maxFileSize: int,
                                  read: string -> Result<string, string>)
    ensures var out := ConsolidatedCode(c, root, timestamp, maxFileSize, read);
      var i := |CountLead(timestamp)|;
      i <= |out| && out[..i] == CountLead(timestamp)
      && NumberAt(out, i, |PythonFiles(CollectedFiles(c, root, []))|)
  {
    var py := PythonFiles(CollectedFiles(c, root, []));
    var rest := "\n\nСТРУКТУРА:\n\"\"\"\n\n" + Blocks(py, maxFileSize, read);
    assert ConsolidatedCode(c, root, timestamp, maxFileSize, read)
        == CountLead(timestamp) + NatToString(|py|) + rest;
    NumberReadsBack(CountLead(timestamp), |py|, rest);
  }

  /** From position `i` on, `out` holds a run of decimal digits, ended by a
      line break, that reads as `n`. */
  predicate NumberAt(out: string, i: nat, n: nat)
  {
    exists j :: i < j < |out| && out[j] == '\n'
      && (forall k :: i <= k < j ==> '0' <= out[k] <= '9')
      && DigitsValue(out[i..j]) == n
  }

  /** A number written between a label and a line break can be read back
      from the text right after the label. */
  lemma NumberReadsBack(lead: string, n: nat, rest: string)
    requires rest != [] && rest[0] == '\n'
    ensures var out := lead + NatToString(n) + rest;
      |lead| <= |out| && out[..|lead|] == lead && NumberAt(out, |lead|, n)
  {
    var digits := NatToString(n);
    var out := lead + digits + rest;
    var j := |lead| + |digits|;
    assert out[|lead|..j] == digits;
    assert out[j] == rest[0];
    NatToStringRoundTrip(n);
  }
}
