/** `ProjectCollector.generate_summary_report` (uniter.py:120-208): the
    statistics over the collected `.py` files, the tree listing and the
    class, function and import sections of the Markdown report. The
    generation time is an input; writing the file is not modelled. */
module Report {
  import opened Common
  import opened Order
  import opened Analysis
  import opened FileSystem
  import opened Collect
  import opened Tree
  import opened TreeRender

  /** A function or class record after `record['file'] = path`. */
  datatype Tagged<T> = Tagged(item: T, file: string)

  // ---------------------------------------------------------------------
  // Aggregation (uniter.py:126-146)

  /** `[f for f in files_info if f['extension'] == '.py']`. */
  function PythonFiles(fs: seq<FileInfo>): (r: seq<FileInfo>)
    ensures forall f :: f in r <==> f in fs && f.extension == ".py"
  {
    if fs == [] then []
    else (if fs[0].extension == ".py" then [fs[0]] else []) + PythonFiles(fs[1..])
  }

  /** The filter keeps the records in collection order, repeats included: the
      `.py` records of a concatenation are those of each part, in order. */
  lemma {:induction false} PythonFilesAppend(a: seq<FileInfo>, b: seq<FileInfo>)
    ensures PythonFiles(a + b) == PythonFiles(a) + PythonFiles(b)
  {
    if a == [] {
      assert a + b == b;
    } else {
      assert (a + b)[0] == a[0] && (a + b)[1..] == a[1..] + b;
      PythonFilesAppend(a[1..], b);
      Assoc((if a[0].extension == ".py" then [a[0]] else []), PythonFiles(a[1..]), PythonFiles(b));
    }
  }

  /** One record is kept exactly when its suffix is `.py`. */
  lemma PythonFilesOne(f: FileInfo)
    ensures PythonFiles([f]) == if f.extension == ".py" then [f] else []
  {
    assert [f][1..] == [];
  }

  /** `len(python_files)` counts every `.py` record as often as it occurs: each
      `.py` record is kept as many times as it was collected, any other none. */
  lemma {:induction false} PythonFilesMultiplicity(fs: seq<FileInfo>, f: FileInfo)
    ensures multiset(PythonFiles(fs))[f] == if f.extension == ".py" then multiset(fs)[f] else 0
  {
    if fs != [] {
      assert fs == [fs[0]] + fs[1..];
      assert multiset(fs) == multiset([fs[0]]) + multiset(fs[1..]);
      PythonFilesMultiplicity(fs[1..], f);
    }
  }

  /** The parts of a successful analysis; an `{'error': ...}` record (or no
      record) has none of the keys and counts as empty. */
  function LinesOf(f: FileInfo): nat
  {
    if f.analysis.Some? && f.analysis.value.Analysis? then f.analysis.value.lines else 0
  }

  function FunctionsOf(f: FileInfo): seq<FunctionInfo>
  {
    if f.analysis.Some? && f.analysis.value.Analysis? then f.analysis.value.functions else []
  }

  function ClassesOf(f: FileInfo): seq<ClassInfo>
  {
    if f.analysis.Some? && f.analysis.value.Analysis? then f.analysis.value.classes else []
  }

  function ImportsOf(f: FileInfo): seq<string>
  {
    if f.analysis.Some? && f.analysis.value.Analysis? then f.analysis.value.imports else []
  }

  /** `sum(f.get('analysis', {}).get('lines', 0) for f in python_files)`. */
  function TotalLines(fs: seq<FileInfo>): nat
  {
    if fs == [] then 0 else TotalLines(fs[..|fs| - 1]) + LinesOf(fs[|fs| - 1])
  }

  /** The records of `xs`, each tagged with `file`. */
  function Tag<T>(xs: seq<T>, file: string): (r: seq<Tagged<T>>)
    ensures |r| == |xs|
    ensures forall k :: 0 <= k < |xs| ==> r[k] == Tagged(xs[k], file)
  {
    if xs == [] then [] else Tag(xs[..|xs| - 1], file) + [Tagged(xs[|xs| - 1], file)]
  }

  /** `all_functions` after the loop over `python_files`. */
  function AllFunctions(fs: seq<FileInfo>): seq<Tagged<FunctionInfo>>
  {
    if fs == [] then [] else AllFunctions(fs[..|fs| - 1]) + Tag(FunctionsOf(fs[|fs| - 1]), fs[|fs| - 1].path)
  }

  /** `all_classes` after the loop over `python_files`. */
  function AllClasses(fs: seq<FileInfo>): seq<Tagged<ClassInfo>>
  {
    if fs == [] then [] else AllClasses(fs[..|fs| - 1]) + Tag(ClassesOf(fs[|fs| - 1]), fs[|fs| - 1].path)
  }

  function Elements(xs: seq<string>): (r: set<string>)
    ensures forall x :: x in r <==> x in xs
  {
    set x | x in xs
  }

  /** `all_imports` after the loop over `python_files`. */
  function AllImports(fs: seq<FileInfo>): set<string>
  {
    if fs == [] then {} else AllImports(fs[..|fs| - 1]) + Elements(ImportsOf(fs[|fs| - 1]))
  }

  /** `for func in analysis['functions']: func['file'] = path; acc.append(func)`
      (and the same for classes). */
  method AppendTagged<T>(acc: seq<Tagged<T>>, xs: seq<T>, file: string) returns (r: seq<Tagged<T>>)
    ensures r == acc + Tag(xs, file)
  {
    r := acc;
    for j := 0 to |xs|
      invariant r == acc + Tag(xs[..j], file)
    {
      assert xs[..j + 1][..j] == xs[..j];
      r := r + [Tagged(xs[j], file)];
      Assoc(acc, Tag(xs[..j], file), [Tagged(xs[j], file)]);
    }
    assert xs[..|xs|] == xs;
  }

  /** The loop over `python_files` gathering functions, classes and imports. */
  method GatherDefinitions(pythonFiles: seq<FileInfo>)
    returns (functions: seq<Tagged<FunctionInfo>>, classes: seq<Tagged<ClassInfo>>, imports: set<string>)
    ensures functions == AllFunctions(pythonFiles)
    ensures classes == AllClasses(pythonFiles)
    ensures imports == AllImports(pythonFiles)
  {
    functions, classes, imports := [], [], {};
    for i := 0 to |pythonFiles|
      invariant functions == AllFunctions(pythonFiles[..i])
      invariant classes == AllClasses(pythonFiles[..i])
      invariant imports == AllImports(pythonFiles[..i])
    {
      var fileInfo := pythonFiles[i];
      assert pythonFiles[..i + 1][..i] == pythonFiles[..i];
      assert pythonFiles[..i + 1][i] == fileInfo;
      match fileInfo.analysis
      case Some(Analysis(imps, fns, cls, _, _)) =>
        functions := AppendTagged(functions, fns, fileInfo.path);
        classes := AppendTagged(classes, cls, fileInfo.path);
        imports := imports + Elements(imps);
      case _ =>
        assert Tag<FunctionInfo>([], fileInfo.path) == [];
        assert Tag<ClassInfo>([], fileInfo.path) == [];
        assert functions + Tag(FunctionsOf(fileInfo), fileInfo.path) == functions;
        assert classes + Tag(ClassesOf(fileInfo), fileInfo.path) == classes;
    }
    assert pythonFiles[..|pythonFiles|] == pythonFiles;
  }

  lemma {:induction false} TotalLinesAppend(a: seq<FileInfo>, b: seq<FileInfo>)
    ensures TotalLines(a + b) == TotalLines(a) + TotalLines(b)
    decreases |b|
  {
    if b == [] {
      assert a + b == a;
    } else {
      var n := |b| - 1;
      assert (a + b)[..|a + b| - 1] == a + b[..n];
      TotalLinesAppend(a, b[..n]);
    }
  }

  /** A file whose analysis failed adds nothing to `total_lines`. */
  lemma ErrorFileAddsNoLines(a: seq<FileInfo>, f: FileInfo, b: seq<FileInfo>)
    requires f.analysis.Some? && f.analysis.value.AnalysisError?
    ensures TotalLines(a + [f] + b) == TotalLines(a + b)
  {
    TotalLinesAppend(a + [f], b);
    TotalLinesAppend(a, [f]);
    TotalLinesAppend(a, b);
    assert [f][..0] == [];
  }

  /** A record is in `Tag(xs, file)` exactly when it is one of `xs` tagged
      with `file`. */
  lemma TagMember<T>(xs: seq<T>, file: string, x: T, path: string)
    ensures Tagged(x, path) in Tag(xs, file) <==> path == file && x in xs
  {
    if Tagged(x, path) in Tag(xs, file) {
      var j :| 0 <= j < |xs| && Tag(xs, file)[j] == Tagged(x, path);
    }
    if path == file && x in xs {
      var j :| 0 <= j < |xs| && xs[j] == x;
      assert Tag(xs, file)[j] == Tagged(x, path);
    }
  }

  /** Some file of `fs` has path `path` and defines function `x`. */
  predicate DefinesFunction(fs: seq<FileInfo>, path: string, x: FunctionInfo)
  {
    exists k :: 0 <= k < |fs| && fs[k].path == path && x in FunctionsOf(fs[k])
  }

  predicate DefinesClass(fs: seq<FileInfo>, path: string, x: ClassInfo)
  {
    exists k :: 0 <= k < |fs| && fs[k].path == path && x in ClassesOf(fs[k])
  }

  lemma DefinesFunctionSnoc(fs: seq<FileInfo>, path: string, x: FunctionInfo)
    requires fs != []
    ensures DefinesFunction(fs, path, x) <==>
      DefinesFunction(fs[..|fs| - 1], path, x) || (fs[|fs| - 1].path == path && x in FunctionsOf(fs[|fs| - 1]))
  {
    var n := |fs| - 1;
    if DefinesFunction(fs, path, x) {
      var k :| 0 <= k < |fs| && fs[k].path == path && x in FunctionsOf(fs[k]);
      if k < n {
        assert fs[..n][k] == fs[k];
      }
    }
    if DefinesFunction(fs[..n], path, x) {
      var k :| 0 <= k < n && fs[..n][k].path == path && x in FunctionsOf(fs[..n][k]);
      assert fs[k] == fs[..n][k];
    }
  }

  lemma DefinesClassSnoc(fs: seq<FileInfo>, path: string, x: ClassInfo)
    requires fs != []
    ensures DefinesClass(fs, path, x) <==>
      DefinesClass(fs[..|fs| - 1], path, x) || (fs[|fs| - 1].path == path && x in ClassesOf(fs[|fs| - 1]))
  {
    var n := |fs| - 1;
    if DefinesClass(fs, path, x) {
      var k :| 0 <= k < |fs| && fs[k].path == path && x in ClassesOf(fs[k]);
      if k < n {
        assert fs[..n][k] == fs[k];
      }
    }
    if DefinesClass(fs[..n], path, x) {
      var k :| 0 <= k < n && fs[..n][k].path == path && x in ClassesOf(fs[..n][k]);
      assert fs[k] == fs[..n][k];
    }
  }

  /** `all_functions` holds exactly the functions of the `.py` files, each
      tagged with the path of the file that defines it. */
  lemma {:induction false} FunctionsTaggedWithTheirFile(fs: seq<FileInfo>, x: FunctionInfo, path: string)
    ensures Tagged(x, path) in AllFunctions(fs) <==> DefinesFunction(fs, path, x)
  {
    if fs != [] {
      var n := |fs| - 1;
      FunctionsTaggedWithTheirFile(fs[..n], x, path);
      TagMember(FunctionsOf(fs[n]), fs[n].path, x, path);
      DefinesFunctionSnoc(fs, path, x);
    }
  }

  /** `all_classes` holds exactly the classes of the `.py` files, each
      tagged with the path of the file that defines it. */
  lemma {:induction false} ClassesTaggedWithTheirFile(fs: seq<FileInfo>, x: ClassInfo, path: string)
    ensures Tagged(x, path) in AllClasses(fs) <==> DefinesClass(fs, path, x)
  {
    if fs != [] {
      var n := |fs| - 1;
      ClassesTaggedWithTheirFile(fs[..n], x, path);
      TagMember(ClassesOf(fs[n]), fs[n].path, x, path);
      DefinesClassSnoc(fs, path, x);
    }
  }

  /** Summed lengths of the per-file function lists. */
  function FunctionCount(fs: seq<FileInfo>): nat
  {
    if fs == [] then 0 else FunctionCount(fs[..|fs| - 1]) + |FunctionsOf(fs[|fs| - 1])|
  }

  function ClassCount(fs: seq<FileInfo>): nat
  {
    if fs == [] then 0 else ClassCount(fs[..|fs| - 1]) + |ClassesOf(fs[|fs| - 1])|
  }

  /** The `Функций` and `Классов` figures are the summed lengths of the
      per-file lists: no record is lost or merged. */
  lemma {:induction false} CountsAreSums(fs: seq<FileInfo>)
    ensures |AllFunctions(fs)| == FunctionCount(fs)
    ensures |AllClasses(fs)| == ClassCount(fs)
  {
    if fs != [] {
      CountsAreSums(fs[..|fs| - 1]);
    }
  }

  /** The `Уникальных импортов` set is the union of the per-file import lists. */
  lemma {:induction false} ImportsAreUnion(fs: seq<FileInfo>, x: string)
    ensures x in AllImports(fs) <==> exists k :: 0 <= k < |fs| && x in ImportsOf(fs[k])
  {
    if fs != [] {
      var n := |fs| - 1;
      var init := fs[..n];
      assert AllImports(fs) == AllImports(init) + Elements(ImportsOf(fs[n]));
      ImportsAreUnion(init, x);
      if x in AllImports(init) {
        var k :| 0 <= k < |init| && x in ImportsOf(init[k]);
        assert init[k] == fs[k];
      }
      if exists k :: 0 <= k < |fs| && x in ImportsOf(fs[k]) {
        var k :| 0 <= k < |fs| && x in ImportsOf(fs[k]);
        if k < n {
          assert init[k] == fs[k];
        }
      }
    }
  }

  // ---------------------------------------------------------------------
  // Rendering (uniter.py:149-202)

  datatype Stats = Stats(files: nat, pythonFiles: nat, lines: nat, functions: nat, classes: nat, imports: nat)

  /** The report up to the tree listing. */
  function Header(timestamp: string, rootName: string, s: Stats): string
  {
    "# Отчет по проекту\nДата генерации: " + timestamp + "\n\n## Общая статистика\n"
    + "- Всего файлов: " + NatToString(s.files) + "\n"
    + "- Python файлов: " + NatToString(s.pythonFiles) + "\n"
    + "- Строк кода: " + NatToString(s.lines) + "\n"
    + "- Функций: " + NatToString(s.functions) + "\n"
    + "- Классов: " + NatToString(s.classes) + "\n"
    + "- Уникальных импортов: " + NatToString(s.imports) + "\n"
    + "\n## Структура проекта\n```\n" + rootName + "/\n"
  }

  /** `f(x0) + f(x1) + ...`: the text a loop of `report += f(x)` adds. */
  function ConcatMap<T>(xs: seq<T>, f: T -> string): string
  {
    if xs == [] then "" else ConcatMap(xs[..|xs| - 1], f) + f(xs[|xs| - 1])
  }

  /** What `print` writes for each line: the line and a line break. */
  function PrintedLine(line: string): string
  {
    line + "\n"
  }

  /** The lines `print_tree(tree)` prints for the top dictionary. */
  function TreeLines(t: Node): seq<string>
  {
    match t
    case Dir(cs) => PrintTree(cs, "")
    case File => []
  }

  /** `f"  - {doc[:100]}...\n"` when the docstring is present and not empty. */
  function DocLine(doc: Option<string>): string
  {
    if doc.Some? && doc.value != "" then "  - " + Take(doc.value, 100) + "...\n" else ""
  }

  function ClassBlock(t: Tagged<ClassInfo>): string
  {
    "- **" + t.item.name + "** (" + t.file + ")\n"
    + DocLine(t.item.docstring)
    + (if t.item.methods != [] then "  - Методы: " + Join(", ", t.item.methods) + "\n" else "")
  }

  function FunctionBlock(t: Tagged<FunctionInfo>): string
  {
    "- **" + t.item.name + "()** (" + t.file + ")\n"
    + DocLine(t.item.docstring)
    + (if t.item.args != [] then "  - Аргументы: " + Join(", ", t.item.args) + "\n" else "")
  }

  function ImportLine(imp: string): string
  {
    "- " + imp + "\n"
  }

  function ClassName(t: Tagged<ClassInfo>): string
  {
    t.item.name
  }

  function FunctionName(t: Tagged<FunctionInfo>): string
  {
    t.item.name
  }

  const ClassesHeading := "## Основные классы\n"
  const FunctionsHeading := "## Основные функции\n"
  const ImportsHeading := "## Основные зависимости\n"

  /** `sorted(all_functions, key=lambda x: x['name'])[:20]`. */
  function TopFunctions(fs: seq<Tagged<FunctionInfo>>): seq<Tagged<FunctionInfo>>
  {
    Take(SortBy(fs, FunctionName), 20)
  }

  /** `sorted(all_imports)[:15]`. */
  ghost function TopImports(s: set<string>): seq<string>
  {
    Take(SortedSet(s), 15)
  }

  /** A section: its heading, its entries and a closing blank line. */
  function Section(heading: string, body: string): string
  {
    heading + body + "\n"
  }

  function ClassesSection(cls: seq<Tagged<ClassInfo>>): string
  {
    if cls == [] then "" else Section(ClassesHeading, ConcatMap(SortBy(cls, ClassName), ClassBlock))
  }

  function FunctionsSection(fs: seq<Tagged<FunctionInfo>>): string
  {
    if fs == [] then "" else Section(FunctionsHeading, ConcatMap(TopFunctions(fs), FunctionBlock))
  }

  ghost function ImportsSection(s: set<string>): string
  {
    if s == {} then "" else Section(ImportsHeading, ConcatMap(TopImports(s), ImportLine))
  }

  /** The report text `generate_summary_report` returns, or `None` when
      building the tree raises. */
  ghost function SummaryReport(c: Collector, root: FsDir, timestamp: string): Option<string>
  {
    var files := CollectedFiles(c, root, []);
    var tree := BuildTree(c, root);
    if tree.None? then None
    else
      var py := PythonFiles(files);
      var functions := AllFunctions(py);
      var classes := AllClasses(py);
      var imports := AllImports(py);
      var stats := Stats(|files|, |py|, TotalLines(py), |functions|, |classes|, |imports|);
      Some(Header(timestamp, c.rootName, stats)
           + ConcatMap(TreeLines(tree.value), PrintedLine) + "```\n\n"
           + ClassesSection(classes) + FunctionsSection(functions) + ImportsSection(imports))
  }

  /** One more turn of a `report += f(x)` loop. */
  lemma ConcatMapStep<T>(prefix: string, xs: seq<T>, i: nat, f: T -> string)
    requires i < |xs|
    ensures prefix + ConcatMap(xs[..i], f) + f(xs[i]) == prefix + ConcatMap(xs[..i + 1], f)
  {
    assert xs[..i + 1][..i] == xs[..i];
    Assoc(prefix, ConcatMap(xs[..i], f), f(xs[i]));
  }

  method GenerateSummaryReport(c: Collector, root: FsDir, timestamp: string) returns (report: Option<string>)
    ensures report == SummaryReport(c, root, timestamp)
  {
    var filesInfo := CollectFiles(c, root, []);
    var tree := GenerateTreeStructure(c, root);
    if tree.None? {
      return None;
    }
    var pythonFiles := PythonFiles(filesInfo);
    var totalLines := TotalLines(pythonFiles);
    var functions, classes, imports := GatherDefinitions(pythonFiles);
    var r := Header(timestamp, c.rootName,
                    Stats(|filesInfo|, |pythonFiles|, totalLines, |functions|, |classes|, |imports|));
    r := AppendTree(r, TreeLines(tree.value));
    r := r + "```\n\n";
    r := AppendClasses(r, classes);
    r := AppendFunctions(r, functions);
    r := AppendImports(r, imports);
    report := Some(r);
  }

  /** A loop of `report += f(x)` over `xs`. */
  method AppendEach<T>(report: string, xs: seq<T>, f: T -> string) returns (r: string)
    ensures r == report + ConcatMap(xs, f)
  {
    r := report;
    for i := 0 to |xs|
      invariant r == report + ConcatMap(xs[..i], f)
    {
      ConcatMapStep(report, xs, i, f);
      r := r + f(xs[i]);
    }
    assert xs[..|xs|] == xs;
  }

  /** `report += tree_output.getvalue()`: the captured output of `print_tree`. */
  method AppendTree(report: string, lines: seq<string>) returns (r: string)
    ensures r == report + ConcatMap(lines, PrintedLine)
  {
    r := AppendEach(report, lines, PrintedLine);
  }

  /** The classes section: every class, sorted by name. */
  method AppendClasses(report: string, classes: seq<Tagged<ClassInfo>>) returns (r: string)
    ensures r == report + ClassesSection(classes)
  {
    r := report;
    if classes != [] {
      var sorted := SortBy(classes, ClassName);
      r := AppendEach(r + ClassesHeading, sorted, ClassBlock);
      r := r + "\n";
      Regroup(report, ClassesHeading, ConcatMap(sorted, ClassBlock), "\n");
    }
  }

  /** The functions section: the first twenty functions by name. */
  method AppendFunctions(report: string, functions: seq<Tagged<FunctionInfo>>) returns (r: string)
    ensures r == report + FunctionsSection(functions)
  {
    r := report;
    if functions != [] {
      var top := Take(SortBy(functions, FunctionName), 20);
      r := AppendEach(r + FunctionsHeading, top, FunctionBlock);
      r := r + "\n";
      Regroup(report, FunctionsHeading, ConcatMap(top, FunctionBlock), "\n");
    }
  }

  /** The imports section: the fifteen smallest imports. */
  method AppendImports(report: string, imports: set<string>) returns (r: string)
    ensures r == report + ImportsSection(imports)
  {
    r := report;
    if imports != {} {
      var sorted := SortSet(imports);
      var top := Take(sorted, 15);
      r := AppendEach(r + ImportsHeading, top, ImportLine);
      r := r + "\n";
      Regroup(report, ImportsHeading, ConcatMap(top, ImportLine), "\n");
    }
  }

  /** Appending a heading, a body and a closing line one after the other
      appends the whole section. */
  lemma Regroup(r: string, heading: string, body: string, close: string)
    ensures ((r + heading) + body) + close == r + ((heading + body) + close)
  {
    Assoc(r, heading, body);
    Assoc(r, heading + body, close);
  }

  // ---------------------------------------------------------------------
  // Properties of the sections

  /** The classes section is left out exactly when there are no classes, and
      otherwise starts with its heading. */
  lemma ClassesSectionLeads(cls: seq<Tagged<ClassInfo>>)
    ensures ClassesSection(cls) == "" <==> cls == []
    ensures cls != [] ==> ClassesSection(cls)[..|ClassesHeading|] == ClassesHeading
  {
    if cls != [] {
      SectionLeads(ClassesHeading, ConcatMap(SortBy(cls, ClassName), ClassBlock));
    }
  }

  /** The same for the functions section. */
  lemma FunctionsSectionLeads(fs: seq<Tagged<FunctionInfo>>)
    ensures FunctionsSection(fs) == "" <==> fs == []
    ensures fs != [] ==> FunctionsSection(fs)[..|FunctionsHeading|] == FunctionsHeading
  {
    if fs != [] {
      SectionLeads(FunctionsHeading, ConcatMap(TopFunctions(fs), FunctionBlock));
    }
  }

  /** The same for the dependencies section. */
  lemma ImportsSectionLeads(imports: set<string>)
    ensures ImportsSection(imports) == "" <==> imports == {}
    ensures imports != {} ==> ImportsSection(imports)[..|ImportsHeading|] == ImportsHeading
  {
    if imports != {} {
      SectionLeads(ImportsHeading, ConcatMap(TopImports(imports), ImportLine));
    }
  }

  /** A section with a non-empty heading is non-empty and starts with it. */
  lemma SectionLeads(heading: string, body: string)
    requires heading != ""
    ensures Section(heading, body) != ""
    ensures Section(heading, body)[..|heading|] == heading
  {
    assert Section(heading, body) == heading + (body + "\n");
  }

  /** The functions section lists `min(20, n)` functions in name order; they
      are functions of the project, and every function left out sorts after
      every one listed. */
  lemma TopFunctionsAreFirstByName(fs: seq<Tagged<FunctionInfo>>)
    ensures |SortBy(fs, FunctionName)| == |fs|
    ensures |TopFunctions(fs)| == if |fs| < 20 then |fs| else 20
    ensures SortedBy(TopFunctions(fs), FunctionName)
    ensures multiset(TopFunctions(fs)) + multiset(SortBy(fs, FunctionName)[|TopFunctions(fs)|..]) == multiset(fs)
    ensures forall i, j :: 0 <= i < |TopFunctions(fs)| <= j < |fs| ==>
      Le(FunctionName(TopFunctions(fs)[i]), FunctionName(SortBy(fs, FunctionName)[j]))
  {
    var sorted := SortBy(fs, FunctionName);
    var top := TopFunctions(fs);
    assert |sorted| == |fs| by {
      assert |multiset(sorted)| == |multiset(fs)|;
    }
    assert sorted == top + sorted[|top|..];
    forall i, j | 0 <= i < j < |top| ensures Le(FunctionName(top[i]), FunctionName(top[j])) {
      assert top[i] == sorted[i] && top[j] == sorted[j];
    }
    forall i, j | 0 <= i < |top| <= j < |fs| ensures Le(FunctionName(top[i]), FunctionName(sorted[j])) {
      assert top[i] == sorted[i];
    }
  }

  /** The imports section lists the `min(15, n)` smallest imports in
      increasing order, each once; every import left out is larger than
      every one listed. */
  lemma TopImportsAreSmallest(s: set<string>)
    ensures |TopImports(s)| == if |s| < 15 then |s| else 15
    ensures StrictlySorted(TopImports(s))
    ensures forall x :: x in TopImports(s) ==> x in s
    ensures forall x, y :: x in s && x !in TopImports(s) && y in TopImports(s) ==> Lt(y, x)
  {
    var sorted := SortedSet(s);
    TakeStrictlySorted(sorted, 15);
    TakeBelowRest(sorted, 15);
  }

  /** A prefix of a strictly sorted list is strictly sorted and drawn from it. */
  lemma TakeStrictlySorted(sorted: seq<string>, n: nat)
    requires StrictlySorted(sorted)
    ensures StrictlySorted(Take(sorted, n))
    ensures forall x :: x in Take(sorted, n) ==> x in sorted
  {
    var top := Take(sorted, n);
    forall i, j | 0 <= i < j < |top| ensures Lt(top[i], top[j]) {
      assert top[i] == sorted[i] && top[j] == sorted[j];
    }
    forall x | x in top ensures x in sorted {
      var i :| 0 <= i < |top| && top[i] == x;
      assert sorted[i] == x;
    }
  }

  /** Everything a prefix of a strictly sorted list leaves out is larger than what it keeps. */
  lemma TakeBelowRest(sorted: seq<string>, n: nat)
    requires StrictlySorted(sorted)
    ensures forall x, y :: x in sorted && x !in Take(sorted, n) && y in Take(sorted, n) ==> Lt(y, x)
  {
    var top := Take(sorted, n);
    forall x, y | x in sorted && x !in top && y in top ensures Lt(y, x) {
      var i :| 0 <= i < |sorted| && sorted[i] == x;
      var j :| 0 <= j < |top| && top[j] == y;
      assert sorted[j] == y;
      assert i >= |top|;
    }
  }

  /** A docstring line keeps the first 100 characters and always ends in
      `"..."`, however short the docstring; an empty or missing docstring
      gives no line. */
  lemma DocLineCutsAtHundred(doc: string)
    ensures DocLine(None) == "" && DocLine(Some("")) == ""
    ensures doc != "" ==> |DocLine(Some(doc))| == 8 + (if |doc| < 100 then |doc| else 100)
    ensures doc != "" ==> EndsWith(DocLine(Some(doc)), "...\n")
    ensures doc != "" && |doc| <= 100 ==> DocLine(Some(doc))[4..4 + |doc|] == doc
  {
    if doc != "" {
      var line := DocLine(Some(doc));
      var cut := Take(doc, 100);
      assert line == "  - " + cut + "...\n";
      assert line[|line| - 4..] == "...\n";
      assert line[4..4 + |cut|] == cut;
    }
  }

  /** Docstrings that agree on their first 100 characters give the same line. */
  lemma DocLineIgnoresTail(d1: string, d2: string)
    requires d1 != "" && d2 != ""
    requires Take(d1, 100) == Take(d2, 100)
    ensures DocLine(Some(d1)) == DocLine(Some(d2))
  {
  }

  /** The tree listing in the report has one line per node of the tree. */
  lemma TreeListingOneLinePerNode(cs: seq<Item>)
    ensures |TreeLines(Dir(cs))| == Count(cs)
  {
    OneLinePerNode(cs, "");
  }
}
