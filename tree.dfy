/** `ProjectCollector.generate_tree_structure` (uniter.py:84-105): the nested
    name-to-node dictionary built from the pruned walk. A dictionary is an
    ordered list of `Item(key, value)` pairs in insertion order; the leaf value
    `'file'` is `File`. The dictionary `current_level` refers to is named by
    its path of keys from the top. */
module Tree {
  import opened Common
  import opened FileSystem

  datatype Node = File | Dir(children: seq<Item>)

  /** One `key: value` pair of a dictionary. */
  datatype Item = Item(name: string, node: Node)

  function Keys(cs: seq<Item>): (r: seq<string>)
    ensures |r| == |cs|
    ensures forall k :: 0 <= k < |cs| ==> r[k] == cs[k].name
  {
    if cs == [] then [] else [cs[0].name] + Keys(cs[1..])
  }

  /** `level.get(key)`. */
  function Lookup(cs: seq<Item>, key: string): (r: Option<Node>)
    ensures r.None? <==> key !in Keys(cs)
    ensures r.Some? ==> Item(key, r.value) in cs
  {
    if cs == [] then None
    else if cs[0].name == key then Some(cs[0].node)
    else Lookup(cs[1..], key)
  }

  /** `level[key] = value`: an existing key keeps its place and takes the new
      value; a new key goes at the end. */
  function Put(cs: seq<Item>, key: string, value: Node): (r: seq<Item>)
    ensures Keys(r) == if key in Keys(cs) then Keys(cs) else Keys(cs) + [key]
    ensures Lookup(r, key) == Some(value)
    ensures forall other :: other != key ==> Lookup(r, other) == Lookup(cs, other)
  {
    if cs == [] then [Item(key, value)]
    else
      ConsParts(cs);
      if cs[0].name == key then
        var r := [Item(key, value)] + cs[1..];
        ConsParts(r);
        assert r[0] == Item(key, value) && r[1..] == cs[1..];
        r
      else
        var rest := Put(cs[1..], key, value);
        var r := [cs[0]] + rest;
        ConsParts(r);
        assert r[0] == cs[0] && r[1..] == rest;
        assert key in Keys(cs) <==> key in Keys(cs[1..]);
        Assoc([cs[0].name], Keys(cs[1..]), [key]);
        r
  }

  /** The keys and lookups of a non-empty level, from its first item and the rest. */
  lemma ConsParts(cs: seq<Item>)
    requires cs != []
    ensures Keys(cs) == [cs[0].name] + Keys(cs[1..])
    ensures forall k :: Lookup(cs, k) == if cs[0].name == k then Some(cs[0].node) else Lookup(cs[1..], k)
  {
  }

  lemma {:induction false} PutPut(cs: seq<Item>, key: string, a: Node, b: Node)
    ensures Put(Put(cs, key, a), key, b) == Put(cs, key, b)
  {
    if cs != [] && cs[0].name != key {
      PutPut(cs[1..], key, a, b);
    }
  }

  lemma {:induction false} PutSame(cs: seq<Item>, key: string)
    requires key in Keys(cs)
    ensures Put(cs, key, Lookup(cs, key).value) == cs
  {
    if cs[0].name != key {
      PutSame(cs[1..], key);
    }
  }

  lemma {:induction false} PutFresh(cs: seq<Item>, key: string, value: Node)
    requires key !in Keys(cs)
    ensures Put(cs, key, value) == cs + [Item(key, value)]
  {
    if cs != [] {
      assert cs[0].name != key && key !in Keys(cs[1..]) by {
        assert Keys(cs) == [cs[0].name] + Keys(cs[1..]);
      }
      PutFresh(cs[1..], key, value);
      assert Put(cs, key, value) == [cs[0]] + Put(cs[1..], key, value);
      ConsSnoc(cs, Item(key, value));
    }
  }

  lemma ConsSnoc<X>(xs: seq<X>, x: X)
    requires xs != []
    ensures [xs[0]] + (xs[1..] + [x]) == xs + [x]
  {
    assert [xs[0]] + xs[1..] == xs;
    Assoc([xs[0]], xs[1..], [x]);
  }

  lemma KeysAppend(a: seq<Item>, b: seq<Item>)
    ensures Keys(a + b) == Keys(a) + Keys(b)
  {
  }

  /** The value a missing level gets: `current_level[part] = {}`. */
  function ChildOr(cs: seq<Item>, key: string): Node
  {
    if key in Keys(cs) then Lookup(cs, key).value else Dir([])
  }

  /** `not any(file.endswith(ext.replace('*', '')) for ext in exclude_files)`. */
  predicate KeepFile(name: string, excludeFiles: set<string>)
  {
    !exists p :: p in excludeFiles && EndsWith(name, DeleteAll(p, '*'))
  }

  /** The `for file in files` loop on the level reached: each kept file
      becomes a `'file'` leaf. Storing into a `'file'` leaf raises `TypeError`,
      which is `None`; a leaf that receives nothing is left as it is. */
  function PutFiles(level: Node, files: seq<DiskFile>, excludeFiles: set<string>): Option<Node>
    decreases |files|
  {
    if files == [] then Some(level)
    else if !KeepFile(files[0].name, excludeFiles) then PutFiles(level, files[1..], excludeFiles)
    else match level
      case File => None
      case Dir(cs) => PutFiles(Dir(Put(cs, files[0].name, File)), files[1..], excludeFiles)
  }

  /** Stores the result `r` of working on the child `key` back into `cs`. */
  function Wrap(cs: seq<Item>, key: string, r: Option<Node>): Option<Node>
  {
    if r.Some? then Some(Dir(Put(cs, key, r.value))) else None
  }

  /** One walk step on the dictionary `t`: follow `parts`, creating each
      missing level as an empty dictionary, then add the kept files. Going on
      below a `'file'` leaf raises `TypeError`. */
  function StepAt(t: Node, parts: seq<string>, files: seq<DiskFile>, excludeFiles: set<string>): Option<Node>
    decreases |parts|
  {
    if parts == [] then PutFiles(t, files, excludeFiles)
    else match t
      case File => None
      case Dir(cs) => Wrap(cs, parts[0], StepAt(ChildOr(cs, parts[0]), parts[1..], files, excludeFiles))
  }

  /** The walk steps applied in order; the first error ends the run. */
  function Fold(t: Node, steps: seq<WalkStep>, excludeFiles: set<string>): Option<Node>
    decreases |steps|
  {
    if steps == [] then Some(t)
    else match StepAt(t, steps[0].parts, steps[0].files, excludeFiles)
      case None => None
      case Some(t1) => Fold(t1, steps[1..], excludeFiles)
  }

  /** What `generate_tree_structure()` returns for the file system `root`. */
  function BuildTree(c: Collector, root: FsDir): Option<Node>
  {
    Fold(Dir([]), Walk(root, c.excludeDirs), c.excludeFiles)
  }

  /** The node at the end of `path`, if every key on the way is present. */
  function At(t: Node, path: seq<string>): Option<Node>
    decreases |path|
  {
    if path == [] then Some(t)
    else match t
      case File => None
      case Dir(cs) => if path[0] in Keys(cs) then At(Lookup(cs, path[0]).value, path[1..]) else None
  }

  /** `t` with the node at `path` replaced by `v`. */
  function Replace(t: Node, path: seq<string>, v: Node): (r: Node)
    requires At(t, path).Some?
    ensures At(r, path) == Some(v)
    decreases |path|
  {
    if path == [] then v
    else Dir(Put(t.children, path[0], Replace(Lookup(t.children, path[0]).value, path[1..], v)))
  }

  lemma {:induction false} ReplaceReplace(t: Node, path: seq<string>, a: Node, b: Node)
    requires At(t, path).Some?
    ensures Replace(Replace(t, path, a), path, b) == Replace(t, path, b)
    decreases |path|
  {
    if path != [] {
      var c := Lookup(t.children, path[0]).value;
      ReplaceReplace(c, path[1..], a, b);
      PutPut(t.children, path[0], Replace(c, path[1..], a), Replace(c, path[1..], b));
    }
  }

  lemma {:induction false} ReplaceSelf(t: Node, path: seq<string>)
    requires At(t, path).Some?
    ensures Replace(t, path, At(t, path).value) == t
    decreases |path|
  {
    if path != [] {
      var c := Lookup(t.children, path[0]).value;
      ReplaceSelf(c, path[1..]);
      PutSame(t.children, path[0]);
    }
  }

  lemma {:induction false} AtSnoc(t: Node, path: seq<string>, key: string)
    ensures At(t, path + [key]) ==
      if At(t, path).Some? && At(t, path).value.Dir? && key in Keys(At(t, path).value.children)
      then Some(Lookup(At(t, path).value.children, key).value) else None
    decreases |path|
  {
    if path != [] {
      assert (path + [key])[0] == path[0];
      assert (path + [key])[1..] == path[1..] + [key];
      if t.Dir? && path[0] in Keys(t.children) {
        AtSnoc(Lookup(t.children, path[0]).value, path[1..], key);
      }
    } else {
      assert path + [key] == [key];
    }
  }

  /** `r` stored at `path` in `t`. */
  function Graft(t: Node, path: seq<string>, r: Option<Node>): Option<Node>
    requires At(t, path).Some?
  {
    if r.Some? then Some(Replace(t, path, r.value)) else None
  }

  /** A step whose path passes through an existing node `n` does, below `n`,
      what the rest of the path does to `n` alone. */
  lemma {:induction false} Localize(t: Node, p: seq<string>, q: seq<string>, files: seq<DiskFile>, excludeFiles: set<string>)
    requires At(t, p).Some?
    ensures StepAt(t, p + q, files, excludeFiles) == Graft(t, p, StepAt(At(t, p).value, q, files, excludeFiles))
    decreases |p|
  {
    if p == [] {
      assert p + q == q;
    } else {
      var cs := t.children;
      var c := Lookup(cs, p[0]).value;
      assert (p + q)[0] == p[0];
      assert (p + q)[1..] == p[1..] + q;
      Localize(c, p[1..], q, files, excludeFiles);
    }
  }

  /** A level created empty just before the step enters it is what the step
      would have created itself. */
  lemma EmptyLevelFirst(cs: seq<Item>, q: seq<string>, files: seq<DiskFile>, excludeFiles: set<string>)
    requires q != [] && q[0] !in Keys(cs)
    ensures StepAt(Dir(Put(cs, q[0], Dir([]))), q, files, excludeFiles) == StepAt(Dir(cs), q, files, excludeFiles)
  {
    var below := StepAt(Dir([]), q[1..], files, excludeFiles);
    assert ChildOr(Put(cs, q[0], Dir([])), q[0]) == Dir([]);
    if below.Some? {
      PutPut(cs, q[0], Dir([]), below.value);
    }
  }

  lemma GraftReplace(t: Node, p: seq<string>, a: Node, o: Option<Node>)
    requires At(t, p).Some?
    ensures Graft(Replace(t, p, a), p, o) == Graft(t, p, o)
  {
    if o.Some? {
      ReplaceReplace(t, p, a, o.value);
    }
  }

  /** Creating a missing level before descending into it changes nothing:
      the step would create it anyway. */
  lemma CreateLevel(t: Node, parts: seq<string>, k: nat, files: seq<DiskFile>, excludeFiles: set<string>)
    requires k < |parts|
    requires At(t, parts[..k]).Some? && At(t, parts[..k]).value.Dir?
    requires parts[k] !in Keys(At(t, parts[..k]).value.children)
    ensures StepAt(Replace(t, parts[..k], Dir(Put(At(t, parts[..k]).value.children, parts[k], Dir([])))), parts, files, excludeFiles)
         == StepAt(t, parts, files, excludeFiles)
  {
    var p := parts[..k];
    var q := parts[k..];
    assert parts == p + q;
    assert q != [] && q[0] == parts[k];
    CreateLevelAt(t, p, q, At(t, p).value.children, files, excludeFiles);
  }

  /** `CreateLevel` with the path split at the missing level. */
  lemma CreateLevelAt(t: Node, p: seq<string>, q: seq<string>, cs: seq<Item>, files: seq<DiskFile>, excludeFiles: set<string>)
    requires At(t, p) == Some(Dir(cs))
    requires q != [] && q[0] !in Keys(cs)
    ensures StepAt(Replace(t, p, Dir(Put(cs, q[0], Dir([])))), p + q, files, excludeFiles)
         == StepAt(t, p + q, files, excludeFiles)
  {
    var level := Dir(Put(cs, q[0], Dir([])));
    var t1 := Replace(t, p, level);
    var o := StepAt(Dir(cs), q, files, excludeFiles);
    calc {
      StepAt(t1, p + q, files, excludeFiles);
      { Localize(t1, p, q, files, excludeFiles); }
      Graft(t1, p, StepAt(level, q, files, excludeFiles));
      { EmptyLevelFirst(cs, q, files, excludeFiles); }
      Graft(t1, p, o);
      { GraftReplace(t, p, level, o); }
      Graft(t, p, o);
      { Localize(t, p, q, files, excludeFiles); }
      StepAt(t, p + q, files, excludeFiles);
    }
  }

  /** An existing level is entered as it is. */
  lemma EnterLevel(t: Node, parts: seq<string>, k: nat)
    requires k < |parts|
    requires At(t, parts[..k]).Some? && At(t, parts[..k]).value.Dir?
    requires parts[k] in Keys(At(t, parts[..k]).value.children)
    ensures At(t, parts[..k + 1]).Some?
  {
    assert parts[..k + 1] == parts[..k] + [parts[k]];
    AtSnoc(t, parts[..k], parts[k]);
  }

  /** A missing level is created empty and then entered. */
  lemma NewLevel(t: Node, parts: seq<string>, k: nat, v: Node)
    requires k < |parts|
    requires At(t, parts[..k]).Some?
    requires v.Dir? && parts[k] in Keys(v.children)
    ensures At(Replace(t, parts[..k], v), parts[..k + 1]).Some?
  {
    assert parts[..k + 1] == parts[..k] + [parts[k]];
    AtSnoc(Replace(t, parts[..k], v), parts[..k], parts[k]);
  }

  /** Descending below a `'file'` leaf fails the whole step. */
  lemma ThroughLeaf(t: Node, parts: seq<string>, k: nat, files: seq<DiskFile>, excludeFiles: set<string>)
    requires k < |parts|
    requires At(t, parts[..k]) == Some(File)
    ensures StepAt(t, parts, files, excludeFiles) == None
  {
    assert parts == parts[..k] + parts[k..];
    Localize(t, parts[..k], parts[k..], files, excludeFiles);
  }

  /** `generate_tree_structure`: for each walk step, the descent through
      `path_parts` and the loop over its files. */
  method GenerateTreeStructure(c: Collector, root: FsDir) returns (tree: Option<Node>)
    ensures tree == BuildTree(c, root)
  {
    var steps := Walk(root, c.excludeDirs);
    var t := Dir([]);
    for i := 0 to |steps|
      invariant Fold(t, steps[i..], c.excludeFiles) == BuildTree(c, root)
    {
      assert steps[i..][0] == steps[i] && steps[i..][1..] == steps[i + 1..];
      var r := InsertStep(t, steps[i], c.excludeFiles);
      if r.None? {
        return None;
      }
      t := r.value;
    }
    return Some(t);
  }

  /** One iteration of the walk loop of `generate_tree_structure`. */
  method InsertStep(t0: Node, step: WalkStep, excludeFiles: set<string>) returns (r: Option<Node>)
    ensures r == StepAt(t0, step.parts, step.files, excludeFiles)
  {
    var t := Descend(t0, step.parts, step.files, excludeFiles);
    if t.None? {
      return None;
    }
    Localize(t.value, step.parts, [], step.files, excludeFiles);
    assert step.parts + [] == step.parts;
    r := AddFiles(t.value, step.parts, step.files, excludeFiles);
  }

  /** The tree after the `for part in path_parts` loop: each missing level
      on `parts` is created as an empty dictionary; `None` when the path goes
      on below a `'file'` leaf. */
  function CreatePath(t: Node, parts: seq<string>): Option<Node>
    decreases |parts|
  {
    if parts == [] then Some(t)
    else match t
      case File => None
      case Dir(cs) => Wrap(cs, parts[0], CreatePath(ChildOr(cs, parts[0]), parts[1..]))
  }

  /** The descent is a walk step that has no files to add. */
  lemma {:induction false} CreatePathIsEmptyStep(t: Node, parts: seq<string>, excludeFiles: set<string>)
    ensures CreatePath(t, parts) == StepAt(t, parts, [], excludeFiles)
    decreases |parts|
  {
    if parts != [] && t.Dir? {
      CreatePathIsEmptyStep(ChildOr(t.children, parts[0]), parts[1..], excludeFiles);
    }
  }

  /** The descent fails exactly when a proper prefix of the path ends on a
      `'file'` leaf of the original tree. */
  lemma {:induction false} CreatePathFails(t: Node, parts: seq<string>)
    ensures CreatePath(t, parts).None? <==> exists k :: 0 <= k < |parts| && At(t, parts[..k]) == Some(File)
    decreases |parts|
  {
    if parts == [] {
    } else if t.File? {
      assert At(t, parts[..0]) == Some(File);
    } else {
      var cs, rest := t.children, parts[1..];
      var c := ChildOr(cs, parts[0]);
      CreatePathFails(c, rest);
      assert At(t, parts[..0]) == Some(t);
      forall k | 1 <= k <= |parts|
        ensures At(t, parts[..k]) == if parts[0] in Keys(cs) then At(c, rest[..k - 1]) else None
      {
        assert parts[..k][0] == parts[0] && parts[..k][1..] == rest[..k - 1];
      }
      if exists k :: 0 <= k < |parts| && At(t, parts[..k]) == Some(File) {
        var k :| 0 <= k < |parts| && At(t, parts[..k]) == Some(File);
        assert At(c, rest[..k - 1]) == Some(File);
      }
      if exists j :: 0 <= j < |rest| && At(c, rest[..j]) == Some(File) {
        var j :| 0 <= j < |rest| && At(c, rest[..j]) == Some(File);
        if parts[0] !in Keys(cs) {
          assert false;
        }
        assert At(t, parts[..j + 1]) == Some(File);
      }
    }
  }

  /** The `for part in path_parts` loop: the tree becomes `CreatePath`, so
      every level on `parts` exists afterwards and the rest of the step is
      unaffected. `current_level` is the node at `parts[..k]`; for the top
      (`rel_root == '.'`) the loop does not run and it is the whole tree. */
  method Descend(t0: Node, parts: seq<string>, files: seq<DiskFile>, excludeFiles: set<string>) returns (r: Option<Node>)
    ensures r == CreatePath(t0, parts)
    ensures r.None? <==> exists k :: 0 <= k < |parts| && At(t0, parts[..k]) == Some(File)
    ensures r.None? ==> StepAt(t0, parts, files, excludeFiles) == None
    ensures r.Some? ==> At(r.value, parts).Some?
    ensures r.Some? ==> StepAt(r.value, parts, files, excludeFiles) == StepAt(t0, parts, files, excludeFiles)
  {
    var t := t0;
    for k := 0 to |parts|
      invariant At(t, parts[..k]).Some?
      invariant StepAt(t, parts, files, excludeFiles) == StepAt(t0, parts, files, excludeFiles)
      invariant StepAt(t, parts, [], excludeFiles) == StepAt(t0, parts, [], excludeFiles)
    {
      var level := At(t, parts[..k]).value;
      if level.File? {
        ThroughLeaf(t, parts, k, files, excludeFiles);
        ThroughLeaf(t, parts, k, [], excludeFiles);
        CreatePathIsEmptyStep(t0, parts, excludeFiles);
        CreatePathFails(t0, parts);
        return None;
      }
      if parts[k] !in Keys(level.children) {
        CreateLevel(t, parts, k, files, excludeFiles);
        CreateLevel(t, parts, k, [], excludeFiles);
        NewLevel(t, parts, k, Dir(Put(level.children, parts[k], Dir([]))));
        t := Replace(t, parts[..k], Dir(Put(level.children, parts[k], Dir([]))));
      } else {
        EnterLevel(t, parts, k);
      }
    }
    assert parts[..|parts|] == parts;
    ReinsertUnchanged(t, parts, excludeFiles);
    CreatePathIsEmptyStep(t0, parts, excludeFiles);
    CreatePathFails(t0, parts);
    r := Some(t);
  }

  /** The `for file in files` loop of one walk step, on the level at `path`. */
  method AddFiles(t0: Node, path: seq<string>, files: seq<DiskFile>, excludeFiles: set<string>) returns (r: Option<Node>)
    requires At(t0, path).Some?
    ensures r == Graft(t0, path, PutFiles(At(t0, path).value, files, excludeFiles))
  {
    var t := t0;
    for j := 0 to |files|
      invariant At(t, path).Some?
      invariant Graft(t, path, PutFiles(At(t, path).value, files[j..], excludeFiles))
             == Graft(t0, path, PutFiles(At(t0, path).value, files, excludeFiles))
    {
      var file := files[j];
      assert files[j..][0] == file && files[j..][1..] == files[j + 1..];
      if KeepFile(file.name, excludeFiles) {
        var level := At(t, path).value;
        match level
        case File =>
          return None;
        case Dir(cs) =>
          var t1 := Replace(t, path, Dir(Put(cs, file.name, File)));
          ReplaceReplace(t, path, Dir(Put(cs, file.name, File)), Replace(t, path, Dir(Put(cs, file.name, File))));
          var rest := PutFiles(Dir(Put(cs, file.name, File)), files[j + 1..], excludeFiles);
          if rest.Some? {
            ReplaceReplace(t, path, Dir(Put(cs, file.name, File)), rest.value);
          }
          t := t1;
      }
    }
    ReplaceSelf(t, path);
    r := Some(t);
  }

  /** Names are unique within a directory (files and sub-directories share
      one name space), as on any real file system. */
  predicate WellFormed(d: FsDir)
  {
    (forall i, j :: 0 <= i < j < |d.files| ==> d.files[i].name != d.files[j].name)
    && (forall i, j :: 0 <= i < j < |d.subdirs| ==> d.subdirs[i].name != d.subdirs[j].name)
    && (forall i, j :: 0 <= i < |d.files| && 0 <= j < |d.subdirs| ==> d.files[i].name != d.subdirs[j].name)
    && (forall k :: 0 <= k < |d.subdirs| ==> WellFormed(d.subdirs[k]))
  }

  /** The leaves for the kept files, in listing order. */
  function FileLeaves(files: seq<DiskFile>, excludeFiles: set<string>): seq<Item>
  {
    if files == [] then []
    else (if KeepFile(files[0].name, excludeFiles) then [Item(files[0].name, File)] else [])
         + FileLeaves(files[1..], excludeFiles)
  }

  /** The file-system tree below `d` itself, pruned: the kept files first,
      then every sub-directory whose name is not excluded, each mirrored the
      same way. */
  function Mirror(d: FsDir, excludeDirs: set<string>, excludeFiles: set<string>): Node
    decreases d, 1
  {
    Dir(FileLeaves(d.files, excludeFiles) + SubdirNodes(d.subdirs, excludeDirs, excludeFiles))
  }

  function SubdirNodes(ds: seq<FsDir>, excludeDirs: set<string>, excludeFiles: set<string>): seq<Item>
    decreases ds, 0
  {
    if ds == [] then []
    else (if ds[0].name in excludeDirs then [] else [Item(ds[0].name, Mirror(ds[0], excludeDirs, excludeFiles))])
         + SubdirNodes(ds[1..], excludeDirs, excludeFiles)
  }

  predicate Distinct(s: seq<string>)
  {
    forall i, j :: 0 <= i < j < |s| ==> s[i] != s[j]
  }

  lemma KeysFileLeaves(files: seq<DiskFile>, excludeFiles: set<string>, x: string)
    ensures x in Keys(FileLeaves(files, excludeFiles)) ==> exists k :: 0 <= k < |files| && files[k].name == x
  {
    if files != [] {
      KeysAppend(if KeepFile(files[0].name, excludeFiles) then [Item(files[0].name, File)] else [], FileLeaves(files[1..], excludeFiles));
      KeysFileLeaves(files[1..], excludeFiles, x);
      if x in Keys(FileLeaves(files[1..], excludeFiles)) {
        var k :| 0 <= k < |files[1..]| && files[1..][k].name == x;
        assert files[k + 1].name == x;
      }
    }
  }

  lemma DistinctConcat(a: seq<string>, b: seq<string>)
    requires Distinct(a) && Distinct(b)
    requires forall x :: x in a ==> x !in b
    ensures Distinct(a + b)
  {
    forall i, j | 0 <= i < j < |a + b| ensures (a + b)[i] != (a + b)[j] {
      if i < |a| && j >= |a| {
        assert (a + b)[i] in a && (a + b)[j] in b;
      }
    }
  }

  lemma KeysSubdirNodes(ds: seq<FsDir>, excludeDirs: set<string>, excludeFiles: set<string>, x: string)
    ensures x in Keys(SubdirNodes(ds, excludeDirs, excludeFiles)) ==> exists k :: 0 <= k < |ds| && ds[k].name == x
  {
    if ds != [] {
      var first := if ds[0].name in excludeDirs then [] else [Item(ds[0].name, Mirror(ds[0], excludeDirs, excludeFiles))];
      KeysAppend(first, SubdirNodes(ds[1..], excludeDirs, excludeFiles));
      KeysSubdirNodes(ds[1..], excludeDirs, excludeFiles, x);
      if x in Keys(SubdirNodes(ds[1..], excludeDirs, excludeFiles)) {
        var k :| 0 <= k < |ds[1..]| && ds[1..][k].name == x;
        assert ds[k + 1].name == x;
      }
    }
  }

  lemma {:induction false} FileLeavesDistinct(files: seq<DiskFile>, excludeFiles: set<string>)
    requires forall i, j :: 0 <= i < j < |files| ==> files[i].name != files[j].name
    ensures Distinct(Keys(FileLeaves(files, excludeFiles)))
  {
    if files != [] {
      var first := if KeepFile(files[0].name, excludeFiles) then [Item(files[0].name, File)] else [];
      var rest := FileLeaves(files[1..], excludeFiles);
      FileLeavesDistinct(files[1..], excludeFiles);
      KeysAppend(first, rest);
      forall x | x in Keys(first) ensures x !in Keys(rest) {
        KeysFileLeaves(files[1..], excludeFiles, x);
      }
      DistinctConcat(Keys(first), Keys(rest));
    }
  }

  lemma {:induction false} SubdirNodesDistinct(ds: seq<FsDir>, excludeDirs: set<string>, excludeFiles: set<string>)
    requires forall i, j :: 0 <= i < j < |ds| ==> ds[i].name != ds[j].name
    ensures Distinct(Keys(SubdirNodes(ds, excludeDirs, excludeFiles)))
  {
    if ds != [] {
      var first := if ds[0].name in excludeDirs then [] else [Item(ds[0].name, Mirror(ds[0], excludeDirs, excludeFiles))];
      var rest := SubdirNodes(ds[1..], excludeDirs, excludeFiles);
      SubdirNodesDistinct(ds[1..], excludeDirs, excludeFiles);
      KeysAppend(first, rest);
      forall x | x in Keys(first) ensures x !in Keys(rest) {
        KeysSubdirNodes(ds[1..], excludeDirs, excludeFiles, x);
      }
      DistinctConcat(Keys(first), Keys(rest));
    }
  }

  /** Together with `MirrorEntries`: every kept file and every kept
      sub-directory of a level appears in it exactly once. */
  lemma MirrorKeysDistinct(d: FsDir, excludeDirs: set<string>, excludeFiles: set<string>)
    requires WellFormed(d)
    ensures Distinct(Keys(Mirror(d, excludeDirs, excludeFiles).children))
  {
    var leaves := FileLeaves(d.files, excludeFiles);
    var subs := SubdirNodes(d.subdirs, excludeDirs, excludeFiles);
    FileLeavesDistinct(d.files, excludeFiles);
    SubdirNodesDistinct(d.subdirs, excludeDirs, excludeFiles);
    KeysAppend(leaves, subs);
    forall x | x in Keys(leaves) ensures x !in Keys(subs) {
      KeysFileLeaves(d.files, excludeFiles, x);
      KeysSubdirNodes(d.subdirs, excludeDirs, excludeFiles, x);
    }
    DistinctConcat(Keys(leaves), Keys(subs));
  }

  /** Adding files whose names are new appends one leaf per kept file. */
  lemma {:induction false} PutFilesFresh(cs: seq<Item>, files: seq<DiskFile>, excludeFiles: set<string>)
    requires forall i, j :: 0 <= i < j < |files| ==> files[i].name != files[j].name
    requires forall k :: 0 <= k < |files| ==> files[k].name !in Keys(cs)
    ensures PutFiles(Dir(cs), files, excludeFiles) == Some(Dir(cs + FileLeaves(files, excludeFiles)))
    decreases |files|
  {
    if files == [] {
      assert cs + [] == cs;
    } else {
      var n := files[0].name;
      var tail := files[1..];
      var rest := FileLeaves(tail, excludeFiles);
      FreshTail(cs, files);
      if KeepFile(n, excludeFiles) {
        assert FileLeaves(files, excludeFiles) == [Item(n, File)] + rest;
        PutFresh(cs, n, File);
        KeysAppend(cs, [Item(n, File)]);
        assert Keys(cs + [Item(n, File)]) == Keys(cs) + [n];
        PutFilesFresh(cs + [Item(n, File)], tail, excludeFiles);
        Assoc(cs, [Item(n, File)], rest);
      } else {
        assert FileLeaves(files, excludeFiles) == [] + rest;
        PutFilesFresh(cs, tail, excludeFiles);
        assert [] + rest == rest;
      }
    }
  }

  /** The files after the first still have distinct names, none of them
      among `cs`'s keys or equal to the first file's name. */
  lemma FreshTail(cs: seq<Item>, files: seq<DiskFile>)
    requires files != []
    requires forall i, j :: 0 <= i < j < |files| ==> files[i].name != files[j].name
    requires forall k :: 0 <= k < |files| ==> files[k].name !in Keys(cs)
    ensures forall i, j :: 0 <= i < j < |files[1..]| ==> files[1..][i].name != files[1..][j].name
    ensures forall k :: 0 <= k < |files[1..]| ==> files[1..][k].name !in Keys(cs) + [files[0].name]
  {
    var tail := files[1..];
    forall i, j | 0 <= i < j < |tail| ensures tail[i].name != tail[j].name {
      assert tail[i] == files[i + 1] && tail[j] == files[j + 1];
    }
    forall k | 0 <= k < |tail| ensures tail[k].name !in Keys(cs) + [files[0].name] {
      assert tail[k] == files[k + 1];
    }
  }

  /** What running the remaining steps from an outcome gives. */
  function Then(o: Option<Node>, steps: seq<WalkStep>, excludeFiles: set<string>): Option<Node>
  {
    if o.Some? then Fold(o.value, steps, excludeFiles) else None
  }

  lemma {:induction false} FoldAppend(t: Node, a: seq<WalkStep>, b: seq<WalkStep>, excludeFiles: set<string>)
    ensures Fold(t, a + b, excludeFiles) == Then(Fold(t, a, excludeFiles), b, excludeFiles)
    decreases |a|
  {
    if a == [] {
      assert a + b == b;
    } else {
      assert (a + b)[0] == a[0];
      assert (a + b)[1..] == a[1..] + b;
      var o := StepAt(t, a[0].parts, a[0].files, excludeFiles);
      if o.Some? {
        FoldAppend(o.value, a[1..], b, excludeFiles);
      }
    }
  }

  /** The steps of a sub-directory's walk, seen from its parent, work on the
      parent's child of that name (an empty one if it is missing) and store it back. */
  lemma {:induction false} FoldPrefixed(cs: seq<Item>, n: string, steps: seq<WalkStep>, excludeFiles: set<string>)
    requires steps != []
    ensures Fold(Dir(cs), Prefixed(n, steps), excludeFiles) == Wrap(cs, n, Fold(ChildOr(cs, n), steps, excludeFiles))
    decreases |steps|
  {
    var ps := Prefixed(n, steps);
    var p := steps[0].parts;
    assert ps[0] == WalkStep([n] + p, steps[0].files);
    assert ([n] + p)[0] == n && ([n] + p)[1..] == p;
    var o := StepAt(ChildOr(cs, n), p, steps[0].files, excludeFiles);
    assert StepAt(Dir(cs), [n] + p, steps[0].files, excludeFiles) == Wrap(cs, n, o);
    if o.Some? {
      var c1 := o.value;
      var cs1 := Put(cs, n, c1);
      assert ps[1..] == Prefixed(n, steps[1..]);
      if steps[1..] != [] {
        FoldPrefixed(cs1, n, steps[1..], excludeFiles);
        assert ChildOr(cs1, n) == c1;
        var r := Fold(c1, steps[1..], excludeFiles);
        if r.Some? {
          PutPut(cs, n, c1, r.value);
        }
      }
    }
  }

  /** On a well-formed file system the tree built from the walk of `d`
      (started on an empty dictionary) is `d` itself, pruned. */
  lemma {:induction false} WalkBuildsMirror(d: FsDir, excludeDirs: set<string>, excludeFiles: set<string>)
    requires WellFormed(d)
    ensures Fold(Dir([]), Walk(d, excludeDirs), excludeFiles) == Some(Mirror(d, excludeDirs, excludeFiles))
    decreases d, 2
  {
    var w := Walk(d, excludeDirs);
    var leaves := FileLeaves(d.files, excludeFiles);
    PutFilesFresh([], d.files, excludeFiles);
    assert [] + leaves == leaves;
    assert w[0] == WalkStep([], d.files) && w[1..] == WalkSubdirs(d.subdirs, excludeDirs);
    forall k | 0 <= k < |d.subdirs|
      ensures d.subdirs[k].name !in Keys(leaves)
    {
      KeysFileLeaves(d.files, excludeFiles, d.subdirs[k].name);
    }
    SubdirsBuildMirror(leaves, d.subdirs, excludeDirs, excludeFiles);
  }

  lemma {:induction false} SubdirsBuildMirror(cs: seq<Item>, ds: seq<FsDir>, excludeDirs: set<string>, excludeFiles: set<string>)
    requires forall k :: 0 <= k < |ds| ==> WellFormed(ds[k])
    requires forall i, j :: 0 <= i < j < |ds| ==> ds[i].name != ds[j].name
    requires forall k :: 0 <= k < |ds| ==> ds[k].name !in Keys(cs)
    ensures Fold(Dir(cs), WalkSubdirs(ds, excludeDirs), excludeFiles) == Some(Dir(cs + SubdirNodes(ds, excludeDirs, excludeFiles)))
    decreases ds, 1
  {
    if ds == [] {
      assert cs + [] == cs;
    } else {
      var n := ds[0].name;
      var rest := SubdirNodes(ds[1..], excludeDirs, excludeFiles);
      SubdirTail(cs, ds);
      if n in excludeDirs {
        assert WalkSubdirs(ds, excludeDirs) == [] + WalkSubdirs(ds[1..], excludeDirs);
        assert [] + WalkSubdirs(ds[1..], excludeDirs) == WalkSubdirs(ds[1..], excludeDirs);
        assert [] + rest == rest;
        SubdirsBuildMirror(cs, ds[1..], excludeDirs, excludeFiles);
      } else {
        FirstSubdirBuildsMirror(cs, ds, excludeDirs, excludeFiles);
        KeysAppend(cs, [Item(n, Mirror(ds[0], excludeDirs, excludeFiles))]);
        assert Keys(cs + [Item(n, Mirror(ds[0], excludeDirs, excludeFiles))]) == Keys(cs) + [n];
        SubdirsBuildMirror(cs + [Item(n, Mirror(ds[0], excludeDirs, excludeFiles))], ds[1..], excludeDirs, excludeFiles);
        Assoc(cs, [Item(n, Mirror(ds[0], excludeDirs, excludeFiles))], rest);
      }
    }
  }

  /** The sub-directories after the first are still well formed, with
      distinct names, none of them among `cs`'s keys or equal to the first's. */
  lemma SubdirTail(cs: seq<Item>, ds: seq<FsDir>)
    requires ds != []
    requires forall k :: 0 <= k < |ds| ==> WellFormed(ds[k])
    requires forall i, j :: 0 <= i < j < |ds| ==> ds[i].name != ds[j].name
    requires forall k :: 0 <= k < |ds| ==> ds[k].name !in Keys(cs)
    ensures forall k :: 0 <= k < |ds[1..]| ==> WellFormed(ds[1..][k])
    ensures forall i, j :: 0 <= i < j < |ds[1..]| ==> ds[1..][i].name != ds[1..][j].name
    ensures forall k :: 0 <= k < |ds[1..]| ==> ds[1..][k].name !in Keys(cs) + [ds[0].name]
  {
    var tail := ds[1..];
    forall k | 0 <= k < |tail| ensures WellFormed(tail[k]) && tail[k].name !in Keys(cs) + [ds[0].name] {
      assert tail[k] == ds[k + 1];
    }
    forall i, j | 0 <= i < j < |tail| ensures tail[i].name != tail[j].name {
      assert tail[i] == ds[i + 1] && tail[j] == ds[j + 1];
    }
  }

  /** The walk of a kept sub-directory adds its mirror as a new last child. */
  lemma {:induction false} FirstSubdirBuildsMirror(cs: seq<Item>, ds: seq<FsDir>, excludeDirs: set<string>, excludeFiles: set<string>)
    requires ds != [] && ds[0].name !in excludeDirs && WellFormed(ds[0])
    requires ds[0].name !in Keys(cs)
    ensures Fold(Dir(cs), WalkSubdirs(ds, excludeDirs), excludeFiles)
         == Fold(Dir(cs + [Item(ds[0].name, Mirror(ds[0], excludeDirs, excludeFiles))]), WalkSubdirs(ds[1..], excludeDirs), excludeFiles)
    ensures Keys(cs + [Item(ds[0].name, Mirror(ds[0], excludeDirs, excludeFiles))]) == Keys(cs) + [ds[0].name]
    decreases ds, 0
  {
    var n := ds[0].name;
    var m := Mirror(ds[0], excludeDirs, excludeFiles);
    var walk := Walk(ds[0], excludeDirs);
    FoldAppend(Dir(cs), Prefixed(n, walk), WalkSubdirs(ds[1..], excludeDirs), excludeFiles);
    FoldPrefixed(cs, n, walk, excludeFiles);
    WalkBuildsMirror(ds[0], excludeDirs, excludeFiles);
    assert ChildOr(cs, n) == Dir([]);
    PutFresh(cs, n, m);
    KeysAppend(cs, [Item(n, m)]);
  }

  /** `generate_tree_structure` on a well-formed file system returns the
      pruned file-system tree. */
  lemma TreeIsPrunedFileSystem(c: Collector, root: FsDir)
    requires WellFormed(root)
    ensures BuildTree(c, root) == Some(Mirror(root, c.excludeDirs, c.excludeFiles))
  {
    WalkBuildsMirror(root, c.excludeDirs, c.excludeFiles);
  }

  lemma FileLeavesMember(files: seq<DiskFile>, excludeFiles: set<string>, name: string, node: Node)
    ensures Item(name, node) in FileLeaves(files, excludeFiles) <==>
      node == File && KeepFile(name, excludeFiles) && exists k :: 0 <= k < |files| && files[k].name == name
  {
    if files != [] {
      FileLeavesMember(files[1..], excludeFiles, name, node);
      if node == File && KeepFile(name, excludeFiles) && files[0].name != name {
        if exists k :: 0 <= k < |files| && files[k].name == name {
          var k :| 0 <= k < |files| && files[k].name == name;
          assert files[1..][k - 1].name == name;
        }
      }
    }
  }

  lemma SubdirNodesMember(ds: seq<FsDir>, excludeDirs: set<string>, excludeFiles: set<string>, name: string, node: Node)
    ensures Item(name, node) in SubdirNodes(ds, excludeDirs, excludeFiles) <==>
      name !in excludeDirs && exists k :: 0 <= k < |ds| && ds[k].name == name && node == Mirror(ds[k], excludeDirs, excludeFiles)
  {
    if ds != [] {
      SubdirNodesMember(ds[1..], excludeDirs, excludeFiles, name, node);
      if exists k :: 0 <= k < |ds| && ds[k].name == name && node == Mirror(ds[k], excludeDirs, excludeFiles) {
        var k :| 0 <= k < |ds| && ds[k].name == name && node == Mirror(ds[k], excludeDirs, excludeFiles);
        if k > 0 {
          assert ds[1..][k - 1] == ds[k];
        }
      }
    }
  }

  /** A level of the tree holds a `'file'` leaf exactly for each file of the
      directory that the exclusion patterns keep, and a sub-level exactly for
      each sub-directory whose name is not excluded: an excluded directory
      and everything below it never appear. */
  lemma MirrorEntries(d: FsDir, excludeDirs: set<string>, excludeFiles: set<string>, name: string, node: Node)
    ensures Item(name, node) in Mirror(d, excludeDirs, excludeFiles).children <==>
      (node == File && KeepFile(name, excludeFiles) && exists k :: 0 <= k < |d.files| && d.files[k].name == name)
      || (name !in excludeDirs && exists k :: 0 <= k < |d.subdirs| && d.subdirs[k].name == name
                                            && node == Mirror(d.subdirs[k], excludeDirs, excludeFiles))
  {
    FileLeavesMember(d.files, excludeFiles, name, node);
    SubdirNodesMember(d.subdirs, excludeDirs, excludeFiles, name, node);
  }

  /** Walking a path whose levels all exist again, with no files, changes nothing. */
  lemma ReinsertUnchanged(t: Node, parts: seq<string>, excludeFiles: set<string>)
    requires At(t, parts).Some?
    ensures StepAt(t, parts, [], excludeFiles) == Some(t)
  {
    Localize(t, parts, [], [], excludeFiles);
    assert parts + [] == parts;
    ReplaceSelf(t, parts);
  }

  /** After a successful step every level on its path exists. */
  lemma {:induction false} StepCreatesPath(t: Node, parts: seq<string>, files: seq<DiskFile>, excludeFiles: set<string>)
    requires StepAt(t, parts, files, excludeFiles).Some?
    ensures At(StepAt(t, parts, files, excludeFiles).value, parts).Some?
    decreases |parts|
  {
    if parts != [] {
      StepCreatesPath(ChildOr(t.children, parts[0]), parts[1..], files, excludeFiles);
    }
  }

  /** Deleting the `'*'` of a pattern `"*" + s` leaves `s`. */
  lemma DeleteLeadingStar(s: string)
    requires '*' !in s
    ensures DeleteAll(['*'] + s, '*') == s
  {
    assert (['*'] + s)[1..] == s;
  }

  /** With the default patterns, compiled Python files never enter the tree. */
  lemma DefaultPatternsDropCompiled(name: string)
    requires EndsWith(name, ".pyc") || EndsWith(name, ".pyo")
    ensures !KeepFile(name, DefaultExcludeFiles)
  {
    if EndsWith(name, ".pyc") {
      assert "*.pyc" == ['*'] + ".pyc";
      DeleteLeadingStar(".pyc");
      assert "*.pyc" in DefaultExcludeFiles && EndsWith(name, DeleteAll("*.pyc", '*'));
    } else {
      assert "*.pyo" == ['*'] + ".pyo";
      DeleteLeadingStar(".pyo");
      assert "*.pyo" in DefaultExcludeFiles && EndsWith(name, DeleteAll("*.pyo", '*'));
    }
  }

  /** Storing files into a dictionary never fails. */
  lemma {:induction false} PutFilesKeepsDir(level: Node, files: seq<DiskFile>, excludeFiles: set<string>)
    requires level.Dir?
    ensures PutFiles(level, files, excludeFiles).Some? && PutFiles(level, files, excludeFiles).value.Dir?
    decreases |files|
  {
    if files != [] {
      if KeepFile(files[0].name, excludeFiles) {
        PutFilesKeepsDir(Dir(Put(level.children, files[0].name, File)), files[1..], excludeFiles);
      } else {
        PutFilesKeepsDir(level, files[1..], excludeFiles);
      }
    }
  }

  lemma {:induction false} FoldKeepsDir(t: Node, steps: seq<WalkStep>, excludeFiles: set<string>)
    requires t.Dir?
    ensures Fold(t, steps, excludeFiles).Some? ==> Fold(t, steps, excludeFiles).value.Dir?
    decreases |steps|
  {
    if steps != [] {
      var o := StepAt(t, steps[0].parts, steps[0].files, excludeFiles);
      if steps[0].parts == [] {
        PutFilesKeepsDir(t, steps[0].files, excludeFiles);
      }
      if o.Some? {
        FoldKeepsDir(o.value, steps[1..], excludeFiles);
      }
    }
  }

  /** The tree `generate_tree_structure` returns is a dictionary at the top. */
  lemma BuildTreeIsDir(c: Collector, root: FsDir)
    ensures BuildTree(c, root).Some? ==> BuildTree(c, root).value.Dir?
  {
    FoldKeepsDir(Dir([]), Walk(root, c.excludeDirs), c.excludeFiles);
  }
}
