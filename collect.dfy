/** `ProjectCollector.collect_files` (uniter.py:56-82): the files of the walk
    whose suffix is one of the requested extensions, each with its path
    relative to the top, its size, its suffix and, for `.py` files, its analysis. */
module Collect {
  import opened Common
  import opened Analysis
  import opened FileSystem

  /** The `info` dictionary of one collected file. */
  datatype FileInfo = FileInfo(path: string, size: nat, extension: string, analysis: Option<Analysis>)

  const DefaultExtensions: seq<string> := [".py", ".md", ".txt", ".yml", ".yaml", ".json"]

  /** `extensions or [...]`: `None` and `[]` both select the default list. */
  function EffectiveExtensions(extensions: seq<string>): (r: seq<string>)
    ensures r != []
    ensures extensions != [] ==> r == extensions
  {
    if extensions != [] then extensions else DefaultExtensions
  }

  /** Index of the last `'.'` in `s`, or -1: `s.rfind('.')`. */
  function LastDot(s: string): (i: int)
    ensures -1 <= i < |s|
    ensures i >= 0 ==> s[i] == '.'
    ensures forall k :: i < k < |s| ==> s[k] != '.'
  {
    if s == [] then -1
    else if s[|s| - 1] == '.' then |s| - 1
    else LastDot(s[..|s| - 1])
  }

  /** `PurePath(name).suffix`: from the last dot on, provided that dot is
      neither the first nor the last character (`".bashrc"` and `"a."` have none). */
  function Suffix(name: string): (r: string)
    ensures r != "" ==> |r| >= 2 && r[0] == '.' && '.' !in r[1..] && EndsWith(name, r) && |r| < |name|
    ensures r == "" <==> !(0 < LastDot(name) < |name| - 1)
  {
    var i := LastDot(name);
    if 0 < i < |name| - 1 then name[i..] else ""
  }

  /** `str(rel_path)`: the components joined with the POSIX separator. */
  function PathOf(e: Entry): string
  {
    Join("/", e.parts + [e.file.name])
  }

  /** The record `collect_files` appends for one file. */
  function InfoOf(e: Entry): (r: FileInfo)
    ensures r.analysis.Some? <==> r.extension == ".py"
    ensures r.analysis.Some? ==> r.analysis.value == Analyze(e.file.source)
  {
    var suffix := Suffix(e.file.name);
    FileInfo(PathOf(e), e.file.size, suffix, if suffix == ".py" then Some(Analyze(e.file.source)) else None)
  }

  /** The records of the entries whose suffix is one of `exts`, in order. */
  function Select(es: seq<Entry>, exts: seq<string>): seq<FileInfo>
  {
    if es == [] then [] else Pick(es[0], exts) + Select(es[1..], exts)
  }

  function Pick(e: Entry, exts: seq<string>): seq<FileInfo>
  {
    if Suffix(e.file.name) in exts then [InfoOf(e)] else []
  }

  lemma {:induction false} SelectAppend(a: seq<Entry>, b: seq<Entry>, exts: seq<string>)
    ensures Select(a + b, exts) == Select(a, exts) + Select(b, exts)
  {
    if a != [] {
      assert (a + b)[0] == a[0];
      assert (a + b)[1..] == a[1..] + b;
      SelectAppend(a[1..], b, exts);
      assert Select(a + b, exts) == Pick(a[0], exts) + Select(a[1..] + b, exts);
      Assoc(Pick(a[0], exts), Select(a[1..], exts), Select(b, exts));
    } else {
      assert a + b == b;
    }
  }

  /** What `collect_files(extensions)` returns for the file system `root`. */
  function CollectedFiles(c: Collector, root: FsDir, extensions: seq<string>): seq<FileInfo>
  {
    Select(WalkEntries(Walk(root, c.excludeDirs)), EffectiveExtensions(extensions))
  }

  /** `collect_files`: the walk, and for each of its files the suffix test,
      the analysis of `.py` files and the append to `files_info`. */
  method CollectFiles(c: Collector, root: FsDir, extensions: seq<string>) returns (filesInfo: seq<FileInfo>)
    ensures filesInfo == CollectedFiles(c, root, extensions)
  {
    var exts := if extensions != [] then extensions else DefaultExtensions;
    var steps := Walk(root, c.excludeDirs);
    filesInfo := [];
    for i := 0 to |steps|
      invariant filesInfo == Select(WalkEntries(steps[..i]), exts)
    {
      filesInfo := CollectStepFiles(filesInfo, steps[i], exts);
      SelectNextStep(steps, i, exts);
    }
    assert steps[..|steps|] == steps;
  }

  lemma SelectNextStep(steps: seq<WalkStep>, i: nat, exts: seq<string>)
    requires i < |steps|
    ensures Select(WalkEntries(steps[..i + 1]), exts)
         == Select(WalkEntries(steps[..i]), exts) + Select(FileEntries(steps[i].parts, steps[i].files), exts)
  {
    var step := steps[i];
    assert steps[..i + 1] == steps[..i] + [step];
    WalkEntriesAppend(steps[..i], [step]);
    assert WalkEntries([step]) == FileEntries(step.parts, step.files) + WalkEntries([]);
    assert FileEntries(step.parts, step.files) + [] == FileEntries(step.parts, step.files);
    assert WalkEntries(steps[..i + 1]) == WalkEntries(steps[..i]) + FileEntries(step.parts, step.files);
    SelectAppend(WalkEntries(steps[..i]), FileEntries(step.parts, step.files), exts);
  }

  /** The inner `for file in files` loop of `collect_files` for one walk step. */
  method CollectStepFiles(filesInfo: seq<FileInfo>, step: WalkStep, exts: seq<string>) returns (r: seq<FileInfo>)
    ensures r == filesInfo + Select(FileEntries(step.parts, step.files), exts)
  {
    r := filesInfo;
    for j := 0 to |step.files|
      invariant r == filesInfo + Select(FileEntries(step.parts, step.files[..j]), exts)
    {
      var file := step.files[j];
      var suffix := Suffix(file.name);
      ghost var e := Entry(step.parts, file);
      ghost var before := r;
      if suffix in exts {
        var analysis: Option<Analysis> := None;
        if suffix == ".py" {
          var a := AnalyzePythonFile(file.source);
          analysis := Some(a);
        }
        var info := FileInfo(Join("/", step.parts + [file.name]), file.size, suffix, analysis);
        assert info == InfoOf(e);
        r := r + [info];
      }
      assert r == before + Pick(e, exts);
      SelectNextFile(step.parts, step.files, j, exts);
      Assoc(filesInfo, Select(FileEntries(step.parts, step.files[..j]), exts), Pick(e, exts));
    }
    assert step.files[..|step.files|] == step.files;
  }

  lemma SelectNextFile(parts: seq<string>, files: seq<DiskFile>, j: nat, exts: seq<string>)
    requires j < |files|
    ensures Select(FileEntries(parts, files[..j + 1]), exts)
         == Select(FileEntries(parts, files[..j]), exts) + Pick(Entry(parts, files[j]), exts)
  {
    var e := Entry(parts, files[j]);
    assert files[..j + 1] == files[..j] + [files[j]];
    FileEntriesSnoc(parts, files[..j], files[j]);
    SelectAppend(FileEntries(parts, files[..j]), [e], exts);
    assert Select([e], exts) == Pick(e, exts) + Select([], exts);
  }

  lemma {:induction false} FileEntriesSnoc(parts: seq<string>, files: seq<DiskFile>, f: DiskFile)
    ensures FileEntries(parts, files + [f]) == FileEntries(parts, files) + [Entry(parts, f)]
  {
    assert |FileEntries(parts, files + [f])| == |files| + 1;
  }

  lemma {:induction false} SelectMember(es: seq<Entry>, exts: seq<string>, r: FileInfo)
    ensures r in Select(es, exts) <==> exists e :: e in es && Suffix(e.file.name) in exts && r == InfoOf(e)
  {
    if es != [] {
      SelectMember(es[1..], exts, r);
      assert forall e :: e in es <==> e == es[0] || e in es[1..];
    }
  }

  lemma {:induction false} KeepOutsideMember(es: seq<Entry>, exclude: set<string>, e: Entry)
    ensures e in KeepOutside(es, exclude) <==> e in es && Outside(e.parts, exclude)
  {
    if es != [] {
      KeepOutsideMember(es[1..], exclude, e);
      assert e in es <==> e == es[0] || e in es[1..];
    }
  }

  /** `collect_files` returns, in walk order, the record of every file whose
      suffix is a requested extension and that is not below a directory whose
      name is excluded, and nothing else. */
  lemma CollectedExactly(c: Collector, root: FsDir, extensions: seq<string>, r: FileInfo)
    ensures CollectedFiles(c, root, extensions)
         == Select(KeepOutside(AllFiles(root), c.excludeDirs), EffectiveExtensions(extensions))
    ensures r in CollectedFiles(c, root, extensions) <==>
      exists e :: e in AllFiles(root) && Outside(e.parts, c.excludeDirs)
                  && Suffix(e.file.name) in EffectiveExtensions(extensions) && r == InfoOf(e)
  {
    WalkShowsFilesOutsideExcluded(root, c.excludeDirs);
    var kept := KeepOutside(AllFiles(root), c.excludeDirs);
    SelectMember(kept, EffectiveExtensions(extensions), r);
    forall e ensures e in kept <==> e in AllFiles(root) && Outside(e.parts, c.excludeDirs) {
      KeepOutsideMember(AllFiles(root), c.excludeDirs, e);
    }
  }

  /** Only `.py` records carry an analysis, and every one of them does. */
  lemma AnalysisOnlyForPython(c: Collector, root: FsDir, extensions: seq<string>, r: FileInfo)
    requires r in CollectedFiles(c, root, extensions)
    ensures r.analysis.Some? <==> r.extension == ".py"
  {
    CollectedExactly(c, root, extensions, r);
  }
}
