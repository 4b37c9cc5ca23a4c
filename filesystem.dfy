/** The collector's configuration (`ProjectCollector.__init__`, uniter.py:10-13)
    and the directory walk it relies on. The file system is a snapshot given
    as a tree: each directory lists its files and sub-directories in the order
    the operating system returns them; a file carries its size and what
    reading it gives. `os.walk` becomes the function `Walk`. */
module FileSystem {
  import opened Common
  import opened Analysis

  datatype DiskFile = DiskFile(name: string, size: nat, source: Source)

  datatype FsDir = FsDir(name: string, files: seq<DiskFile>, subdirs: seq<FsDir>)

  /** One `(root, dirs, files)` triple of `os.walk`, with `root` given as the
      path components below the walk's top (the top itself is `[]`). */
  datatype WalkStep = WalkStep(parts: seq<string>, files: seq<DiskFile>)

  /** The fields `__init__` sets; the script never changes them afterwards. */
  datatype Collector = Collector(rootName: string, excludeDirs: set<string>, excludeFiles: set<string>)

  const DefaultExcludeDirs: set<string> := {"__pycache__", ".git", ".venv", "venv", "node_modules", ".idea"}

  const DefaultExcludeFiles: set<string> := {"*.pyc", "*.pyo", ".DS_Store"}

  /** `ProjectCollector(root_dir, exclude_dirs, exclude_files)`. `rootName` is
      `Path(root_dir).name` (empty for `'.'`). Python's `x or default` picks the
      default for `None` and for an empty set alike; both are `{}` here. */
  function NewCollector(rootName: string, excludeDirs: set<string>, excludeFiles: set<string>): (c: Collector)
    ensures c.rootName == rootName
    ensures c.excludeDirs != {} && c.excludeFiles != {}
    ensures excludeDirs != {} ==> c.excludeDirs == excludeDirs
    ensures excludeFiles != {} ==> c.excludeFiles == excludeFiles
    ensures excludeDirs == {} ==> ".git" in c.excludeDirs && "__pycache__" in c.excludeDirs
    ensures excludeFiles == {} ==> "*.pyc" in c.excludeFiles
  {
    Collector(rootName,
              if excludeDirs != {} then excludeDirs else DefaultExcludeDirs,
              if excludeFiles != {} then excludeFiles else DefaultExcludeFiles)
  }

  /** Adds the directory name `n` in front of every step's path. */
  function Prefixed(n: string, steps: seq<WalkStep>): (r: seq<WalkStep>)
    ensures |r| == |steps|
    ensures forall k :: 0 <= k < |r| ==> r[k] == WalkStep([n] + steps[k].parts, steps[k].files)
  {
    if steps == [] then [] else [WalkStep([n] + steps[0].parts, steps[0].files)] + Prefixed(n, steps[1..])
  }

  /** `os.walk(top)` (top-down) together with the loop body's
      `dirs[:] = [d for d in dirs if d not in exclude]`: the directory itself,
      then, in listing order, each sub-directory whose name is not excluded,
      walked the same way. An excluded directory is never entered. */
  function Walk(d: FsDir, exclude: set<string>): seq<WalkStep>
    decreases d, 1
  {
    [WalkStep([], d.files)] + WalkSubdirs(d.subdirs, exclude)
  }

  function WalkSubdirs(ds: seq<FsDir>, exclude: set<string>): seq<WalkStep>
    decreases ds, 0
  {
    if ds == [] then []
    else
      (if ds[0].name in exclude then [] else Prefixed(ds[0].name, Walk(ds[0], exclude)))
      + WalkSubdirs(ds[1..], exclude)
  }

  /** A file seen in a walk, with the path components of its directory. */
  datatype Entry = Entry(parts: seq<string>, file: DiskFile)

  function FileEntries(parts: seq<string>, files: seq<DiskFile>): (r: seq<Entry>)
    ensures |r| == |files|
    ensures forall k :: 0 <= k < |r| ==> r[k] == Entry(parts, files[k])
  {
    if files == [] then [] else [Entry(parts, files[0])] + FileEntries(parts, files[1..])
  }

  /** The files a sequence of walk steps shows, in walk order. */
  function WalkEntries(steps: seq<WalkStep>): seq<Entry>
  {
    if steps == [] then [] else FileEntries(steps[0].parts, steps[0].files) + WalkEntries(steps[1..])
  }

  /** Every file below `d`, excluded directories included, in the same order. */
  function AllFiles(d: FsDir): seq<Entry>
    decreases d, 1
  {
    FileEntries([], d.files) + AllFilesBelow(d.subdirs)
  }

  function AllFilesBelow(ds: seq<FsDir>): seq<Entry>
    decreases ds, 0
  {
    if ds == [] then [] else PrefixEntries(ds[0].name, AllFiles(ds[0])) + AllFilesBelow(ds[1..])
  }

  function PrefixEntries(n: string, es: seq<Entry>): (r: seq<Entry>)
    ensures |r| == |es|
    ensures forall k :: 0 <= k < |r| ==> r[k] == Entry([n] + es[k].parts, es[k].file)
  {
    if es == [] then [] else [Entry([n] + es[0].parts, es[0].file)] + PrefixEntries(n, es[1..])
  }

  /** No component of the directory path is an excluded name. */
  predicate Outside(parts: seq<string>, exclude: set<string>)
  {
    forall k :: 0 <= k < |parts| ==> parts[k] !in exclude
  }

  function KeepOutside(es: seq<Entry>, exclude: set<string>): seq<Entry>
  {
    if es == [] then []
    else (if Outside(es[0].parts, exclude) then [es[0]] else []) + KeepOutside(es[1..], exclude)
  }

  lemma {:induction false} WalkEntriesAppend(a: seq<WalkStep>, b: seq<WalkStep>)
    ensures WalkEntries(a + b) == WalkEntries(a) + WalkEntries(b)
  {
    if a != [] {
      assert (a + b)[1..] == a[1..] + b;
      WalkEntriesAppend(a[1..], b);
    } else {
      assert a + b == b;
    }
  }

  lemma {:induction false} KeepOutsideAppend(a: seq<Entry>, b: seq<Entry>, exclude: set<string>)
    ensures KeepOutside(a + b, exclude) == KeepOutside(a, exclude) + KeepOutside(b, exclude)
  {
    if a != [] {
      assert (a + b)[1..] == a[1..] + b;
      KeepOutsideAppend(a[1..], b, exclude);
    } else {
      assert a + b == b;
    }
  }

  lemma {:induction false} PrefixedEntries(n: string, steps: seq<WalkStep>)
    ensures WalkEntries(Prefixed(n, steps)) == PrefixEntries(n, WalkEntries(steps))
  {
    if steps != [] {
      PrefixedEntries(n, steps[1..]);
      assert Prefixed(n, steps)[1..] == Prefixed(n, steps[1..]);
      PrefixEntriesAppend(n, FileEntries(steps[0].parts, steps[0].files), WalkEntries(steps[1..]));
    }
  }

  lemma {:induction false} PrefixEntriesAppend(n: string, a: seq<Entry>, b: seq<Entry>)
    ensures PrefixEntries(n, a + b) == PrefixEntries(n, a) + PrefixEntries(n, b)
  {
  }

  /** Prefixing with an excluded name drops every entry; prefixing with any
      other name keeps the same entries as before. */
  lemma {:induction false} KeepOutsidePrefix(n: string, es: seq<Entry>, exclude: set<string>)
    ensures KeepOutside(PrefixEntries(n, es), exclude)
         == if n in exclude then [] else PrefixEntries(n, KeepOutside(es, exclude))
  {
    if es != [] {
      KeepOutsidePrefix(n, es[1..], exclude);
      var p := [n] + es[0].parts;
      assert p[0] == n;
      if n !in exclude {
        assert Outside(p, exclude) <==> Outside(es[0].parts, exclude) by {
          forall k | 0 <= k < |es[0].parts| ensures p[k + 1] == es[0].parts[k] { }
        }
        PrefixEntriesAppend(n, if Outside(es[0].parts, exclude) then [es[0]] else [], KeepOutside(es[1..], exclude));
      }
      assert PrefixEntries(n, es)[1..] == PrefixEntries(n, es[1..]);
    }
  }

  lemma {:induction false} KeepOutsideTop(files: seq<DiskFile>, exclude: set<string>)
    ensures KeepOutside(FileEntries([], files), exclude) == FileEntries([], files)
  {
    if files != [] {
      KeepOutsideTop(files[1..], exclude);
      assert FileEntries([], files)[1..] == FileEntries([], files[1..]);
    }
  }

  /** The pruned walk shows exactly the files that are not below an excluded
      directory, in the order of the unpruned walk. */
  lemma {:induction false} WalkShowsFilesOutsideExcluded(d: FsDir, exclude: set<string>)
    ensures WalkEntries(Walk(d, exclude)) == KeepOutside(AllFiles(d), exclude)
    decreases d, 1
  {
    WalkEntriesAppend([WalkStep([], d.files)], WalkSubdirs(d.subdirs, exclude));
    KeepOutsideAppend(FileEntries([], d.files), AllFilesBelow(d.subdirs), exclude);
    KeepOutsideTop(d.files, exclude);
    assert WalkEntries([WalkStep([], d.files)]) == FileEntries([], d.files);
    SubdirsShowFilesOutsideExcluded(d.subdirs, exclude);
  }

  lemma {:induction false} SubdirsShowFilesOutsideExcluded(ds: seq<FsDir>, exclude: set<string>)
    ensures WalkEntries(WalkSubdirs(ds, exclude)) == KeepOutside(AllFilesBelow(ds), exclude)
    decreases ds, 0
  {
    if ds != [] {
      var n := ds[0].name;
      var first := if n in exclude then [] else Prefixed(n, Walk(ds[0], exclude));
      WalkEntriesAppend(first, WalkSubdirs(ds[1..], exclude));
      KeepOutsideAppend(PrefixEntries(n, AllFiles(ds[0])), AllFilesBelow(ds[1..]), exclude);
      KeepOutsidePrefix(n, AllFiles(ds[0]), exclude);
      if n !in exclude {
        PrefixedEntries(n, Walk(ds[0], exclude));
        WalkShowsFilesOutsideExcluded(ds[0], exclude);
      }
      SubdirsShowFilesOutsideExcluded(ds[1..], exclude);
    }
  }
}
