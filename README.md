# uniter.py: project collector, modelled in Dafny

`uniter.py` holds one class, `ProjectCollector`. It walks a project directory and collects its source files by extension. It builds a nested dictionary of the directory tree and prints that tree with box-drawing connectors. It also analyses every Python file: imports, functions, classes, module docstring and line count. From all of this it writes two texts:

- a Markdown summary report with statistics, the tree, and the main classes, functions and imports;
- a consolidated code file, in which every Python file appears behind a banner.

This project models that class in Dafny, one module per concern:

| file | module | what it models |
|---|---|---|
| `common.dfy` | `Common` | `Option`/`Result`, and the Python builtins the script relies on: `str.join`, `str.endswith`, `str.replace`, slicing, `str(int)` |
| `order.dfy` | `Order` | Python's string order, the stable `sorted(key=...)`, and `sorted()` of a set |
| `analysis.dfy` | `Analysis` | `analyze_python_file` over an abstract syntax tree: the breadth-first `ast.walk`, the import strings, the function and class records, and `splitlines` |
| `filesystem.dfy` | `FileSystem` | the collector's configuration, the file system as a tree of directories, and `os.walk` with the `dirs[:]` pruning |
| `collect.dfy` | `Collect` | `collect_files` |
| `tree.dfy` | `Tree` | `generate_tree_structure`: dictionaries as ordered key/value lists, and `current_level` as a path into the tree |
| `render.dfy` | `TreeRender` | `print_tree`, as the list of lines it prints |
| `report.dfy` | `Report` | `generate_summary_report` |
| `consolidate.dfy` | `Consolidate` | `create_consolidated_code` |

Each loop of the script is a `method`, except the loop of `print_tree`, which calls itself on every dictionary it meets and is the recursive function `TreeRender.PrintTree`. Each method is proved equal to a specification function, and the properties of the script are lemmas about those functions.

Modelling choices:

- The collector is a datatype. The script sets its fields in `__init__` and never changes them afterwards.
- A Python dictionary is a sequence of `Item(name, node)` entries in insertion order.
  - `d[k] = v` on an existing key replaces the value in place.
  - On a new key it appends.
- An exception that escapes a method makes the modelled result `None`. The exception is the `TypeError` raised when the tree builder descends through, or stores into, a `'file'` leaf.

## Model

| member | source | states |
|---|---|---|
| FileSystem.NewCollector | uniter.py:10-13 | An empty `exclude_dirs` or `exclude_files` falls back to the default set (which contains `.git`, `__pycache__` and `*.pyc`). A non-empty one is kept as given. |
| FileSystem.WalkShowsFilesOutsideExcluded | uniter.py:61-63 | The pruned walk shows, in walk order, exactly the files that have no excluded name on their directory path. |
| Analysis.AnalyzePythonFile | uniter.py:15-54 | The result is `Analyze(src)`. That is the error record with the message when the file cannot be read or parsed. Otherwise it holds the lists gathered in walk order, the module docstring and the `splitlines` count. |
| Analysis.WalkModule | uniter.py:31-50 | The `ast.walk` loop appends each node's import strings, function record and class record, in breadth-first order. |
| Analysis.WalkVisitsEachNodeOnce | uniter.py:31 | The breadth-first walk yields every node of the tree exactly once. As a multiset it equals the pre-order traversal. |
| Analysis.FunctionsFromWholeTree | uniter.py:37-43 | Every `def` anywhere in the module gives exactly one function record, whether nested or in a class body. Every record comes from such a `def`. |
| Analysis.MethodNames | uniter.py:47 | A name is listed as a method exactly when a `def` of that name stands directly in the class body. |
| Analysis.MethodNamesAppend | uniter.py:47 | The method names of two runs of statements are those of each run, in order, so the names follow the class body and a repeated name (a property getter and its setter) is listed each time. |
| Analysis.MethodNamesOne | uniter.py:47 | A single statement gives its name exactly when it is a `def`. |
| Analysis.ClassMethodsAreFunctions | uniter.py:44-50 | Every method name of a recorded class is also the name of a recorded function. |
| Analysis.ImportsFromWholeTree | uniter.py:32-36 | The module's imports are, with multiplicity, the strings of all import statements anywhere in the module, however deeply nested. A string is among the imports exactly when some import statement of the module gives it. |
| Analysis.ImportsInSourceOrder | uniter.py:32-36 | For a module made of import statements, the imports come out in source order, statement by statement. |
| Analysis.FromImportIsOneString | uniter.py:34-36 | `from m import a, b` gives exactly one string. It starts with `m.` and the names can be split back out of it. |
| Analysis.FromOsImportPathSep | uniter.py:36 | `from os import path, sep` gives `["os.path, sep"]`. |
| Analysis.LinesHoldNoBreak | uniter.py:28 | No line produced by `splitlines` contains a line-break character. |
| Analysis.LineCountNewlines | uniter.py:28 | On text whose only break is `\n`, the line count is the number of `\n`, plus one for an unterminated last line. |
| Collect.EffectiveExtensions | uniter.py:58 | An empty `extensions` selects the default list. A non-empty one is used as given. |
| Collect.Suffix | uniter.py:66-67 | The suffix is the text from the last dot, provided that dot is neither the first nor the last character. It ends the name and contains no other dot. |
| Collect.InfoOf | uniter.py:70-78 | A record carries an analysis exactly when its suffix is `.py`, and that analysis is the file's. |
| Collect.CollectFiles | uniter.py:56-82 | The loop returns `CollectedFiles`: the selected records of the pruned walk, in walk order. |
| Collect.CollectStepFiles | uniter.py:65-80 | One directory's files extend the list by exactly the records of the files whose suffix is requested, in listing order. |
| Collect.CollectedExactly | uniter.py:61-80 | A record is returned exactly when it belongs to a file whose suffix is requested and which is not below an excluded directory. |
| Collect.AnalysisOnlyForPython | uniter.py:76-78 | Among the returned records, exactly the `.py` ones carry an analysis. |
| Tree.Lookup | uniter.py:97 | A key is missing exactly when it is not among the level's keys. A value that is found is the key's own. |
| Tree.Put | uniter.py:98 | Assigning a key keeps an existing key in its place or appends a new one. Afterwards the key maps to the value, and every other key is unchanged. |
| Tree.PutPut | uniter.py:103 | Assigning the same key twice equals assigning it once, with the second value. |
| Tree.PutFresh | uniter.py:97-98 | Assigning a missing key appends one entry at the end. |
| Tree.GenerateTreeStructure | uniter.py:84-105 | The loop returns `BuildTree`: the walk steps applied in order to an empty dictionary. |
| Tree.InsertStep | uniter.py:90-103 | One walk step descends along its path parts, then adds its kept files on the level reached. |
| Tree.Descend | uniter.py:94-99 | The new tree is the given one with every missing level on the path created as an empty dictionary, and the rest of the tree is unaffected. The descent fails exactly when a proper prefix of the path ends on a `'file'` leaf. |
| Tree.CreatePathFails | uniter.py:94-99 | Creating the levels of a path fails exactly when a proper prefix of the path ends on a `'file'` leaf. |
| Tree.CreatePathIsEmptyStep | uniter.py:86-103 | Creating the levels of a path is the insertion step for that path with no files. |
| Tree.AddFiles | uniter.py:101-103 | The file loop stores its kept files into the level at the path and changes nothing else. |
| Tree.CreateLevel | uniter.py:97-98 | Creating a missing level as `{}` before descending into it does not change the step's outcome. |
| Tree.ThroughLeaf | uniter.py:96-99 | A path that passes through a `'file'` leaf makes the step fail. |
| Tree.ReinsertUnchanged | uniter.py:96-99 | Walking again a path whose levels all exist, with no files, leaves the tree unchanged. |
| Tree.StepCreatesPath | uniter.py:94-99 | After a successful step every level on its path exists. |
| Tree.PutFilesFresh | uniter.py:101-103 | New file names give one `'file'` leaf per kept file, appended in listing order. |
| Tree.TreeIsPrunedFileSystem | uniter.py:84-105 | On a file system with unique names per directory, the tree is the pruned file system: each level holds its kept files, then its non-excluded sub-directories. |
| Tree.MirrorEntries | uniter.py:87-103 | A level holds a `'file'` leaf exactly for each kept file, and a sub-dictionary exactly for each non-excluded sub-directory. An excluded directory and everything below it never appear. |
| Tree.MirrorKeysDistinct | uniter.py:96-103 | Every directory appears exactly once at its path, even an empty one, because the keys of each level are distinct. |
| Tree.DefaultPatternsDropCompiled | uniter.py:102 | With the default patterns, no `.pyc` or `.pyo` file is kept. |
| Tree.BuildTreeIsDir | uniter.py:86-105 | The tree returned is a dictionary at the top. |
| TreeRender.OneLinePerNode | uniter.py:107-118 | `print_tree` prints exactly one line per node. |
| TreeRender.PrintTreeIsRows | uniter.py:107-118 | The printed lines are the nodes in pre-order. Each line is its indentation, its connector and its name, plus `/` for a dictionary. |
| TreeRender.IndentBlocks | uniter.py:117-118 | A node at depth d has a 4·d-character prefix. Block k is `"    "` when ancestor k is last at its level and `"│   "` otherwise. |
| TreeRender.ItemRows | uniter.py:111 | Item i of a level is last exactly when it is the final item. |
| TreeRender.LevelRows | uniter.py:110-114 | The rows of one depth are the level's items in order, so only the final item of a level gets `"└── "`. |
| TreeRender.SlashMarksDirectories | uniter.py:113-116 | A line ends in `/` exactly when it shows a dictionary. |
| Order.SortBy | uniter.py:179 | `sorted(key=...)` returns a permutation of its input, ordered by key. |
| Order.SortByStable | uniter.py:179 | The sort is stable: elements with equal keys keep their input order. |
| Order.SortByUnique | uniter.py:189 | A stable sort has exactly one result, so the model's sort agrees with Python's `sorted`. |
| Order.SortedSet | uniter.py:200 | `sorted(s)` holds each element of the set once, in strictly increasing order. |
| Order.SortSet | uniter.py:200 | Listing a set and sorting the list gives `SortedSet`. |
| Order.StrictlySortedUnique | uniter.py:200 | A strictly increasing list is determined by its elements. |
| Report.PythonFiles | uniter.py:127 | A record is kept exactly when its extension is `.py`. |
| Report.PythonFilesAppend | uniter.py:127 | The `.py` records of two runs of records are those of each run, in order, so the filter keeps collection order. |
| Report.PythonFilesOne | uniter.py:127 | A single record is kept exactly when its extension is `.py`. |
| Report.PythonFilesMultiplicity | uniter.py:127 | Each `.py` record is kept as many times as it was collected, and any other record not at all, so `len(python_files)` counts repeats. |
| Report.Tag | uniter.py:139 | Every record is tagged with the file's path, in order. |
| Report.AppendTagged | uniter.py:138-144 | The inner loops append the file's records, each tagged with its path. |
| Report.GatherDefinitions | uniter.py:135-146 | The loop over the Python files yields `AllFunctions`, `AllClasses` and `AllImports`. |
| Report.TotalLinesAppend | uniter.py:128 | `total_lines` is additive over the list of files. |
| Report.ErrorFileAddsNoLines | uniter.py:128 | A file whose analysis failed adds nothing to `total_lines`. |
| Report.FunctionsTaggedWithTheirFile | uniter.py:137-140 | A tagged function is listed exactly when a Python file with that path defines it. |
| Report.ClassesTaggedWithTheirFile | uniter.py:141-144 | A tagged class is listed exactly when a Python file with that path defines it. |
| Report.CountsAreSums | uniter.py:156-157 | The function and class counts are the summed lengths of the per-file lists. |
| Report.ImportsAreUnion | uniter.py:145-146 | The import set is the union of the per-file import lists. |
| Report.GenerateSummaryReport | uniter.py:120-208 | The method returns `SummaryReport`: header, tree, and the classes, functions and imports sections. The result is `None` when building the tree fails. |
| Report.AppendTree | uniter.py:169-173 | The tree output is each printed line followed by a line break. |
| Report.AppendClasses | uniter.py:177-185 | The loop appends `ClassesSection`. |
| Report.AppendFunctions | uniter.py:187-195 | The loop appends `FunctionsSection`. |
| Report.AppendImports | uniter.py:198-202 | The loop appends `ImportsSection`. |
| Report.ClassesSectionLeads | uniter.py:177-185 | The classes section is empty exactly when no class was found, and otherwise starts with its heading. |
| Report.FunctionsSectionLeads | uniter.py:187-195 | The functions section is empty exactly when no function was found, and otherwise starts with its heading. |
| Report.ImportsSectionLeads | uniter.py:198-202 | The dependencies section is empty exactly when no import was found, and otherwise starts with its heading. |
| Report.TopFunctionsAreFirstByName | uniter.py:189 | The functions section lists min(20, n) functions in name order, taken from the sorted list. Every function left out sorts after every one listed. |
| Report.TopImportsAreSmallest | uniter.py:200 | The imports section lists the min(15, n) smallest imports, strictly increasing. All come from the set, and every import left out is larger than every one listed. |
| Report.DocLineCutsAtHundred | uniter.py:181-182 | A docstring line keeps at most the first 100 characters, followed by `...` in every case. A missing or empty docstring gives no line. |
| Report.DocLineIgnoresTail | uniter.py:191-192 | Docstrings that agree on their first 100 characters give the same line. |
| Report.TreeListingOneLinePerNode | uniter.py:169-173 | The tree listing in the report has one line per node. |
| Consolidate.Repeat | uniter.py:236 | `'=' * 50` is 50 `=` characters. |
| Consolidate.CreateConsolidatedCode | uniter.py:210-256 | The method returns `ConsolidatedCode`: the preamble, then one block per Python file in collection order. |
| Consolidate.AppendFile | uniter.py:224-251 | One file contributes its `FileBlock`: the size marker, the read-error marker, or the banner and content. |
| Consolidate.AppendBanner | uniter.py:236-247 | The banner gets the `ФУНКЦИИ` and `КЛАССЫ` lines only when those lists are non-empty. |
| Consolidate.OversizeIsNotRead | uniter.py:228-230 | A file above the limit gives the same block whatever reading it would give. That block names its path and none of its content. |
| Consolidate.ThresholdIsStrict | uniter.py:228 | A file of exactly `max_file_size` bytes is copied, and one byte more is not. |
| Consolidate.ContentKeptVerbatim | uniter.py:247-248 | A copied file's content stands unchanged between its banner and the closing blank line. |
| Consolidate.UnreadableGetsMarker | uniter.py:250-251 | An unreadable file gets only the error marker with the exception's message. Its block does not even begin with a banner. |
| Consolidate.FunctionsLineListsNames | uniter.py:242-243 | The `ФУНКЦИИ` line is absent exactly when there are no functions. When present, the names read back from it in order. |
| Consolidate.ClassesLineListsNames | uniter.py:244-245 | The `КЛАССЫ` line is absent exactly when there are no classes. When present, the names read back from it in order. |
| Consolidate.BlocksInCollectionOrder | uniter.py:224 | The blocks of a list of files are the blocks of any first part, followed by those of the rest. |
| Consolidate.PreambleCountsPythonFiles | uniter.py:212-217 | The consolidated text begins with the date line and the `Файлов: ` label. Right after the label comes a run of digits, ended by a line break, that reads back as the number of collected `.py` records. |

## Left out

- File I/O is not modelled.
  - A file's size is an input, and so is what reading and parsing it gives (`DiskFile.source`).
  - The second read in `create_consolidated_code` is an input function from path to text or error message.
  - Writing the report and the consolidated file is not modelled.
- `os.walk` is modelled on a tree of directories given in listing order. Symbolic links, directories that cannot be listed, and changes to the disk during the walk are not modelled.
- `Path.relative_to` and `os.path.relpath` are not modelled. Walk steps carry the path components below the top, and a record's path is those components joined with `/`.
- Python's parser (`ast.parse`, `ast.get_docstring`) is not part of the model.
  - A parsed module is an abstract tree of the statement nodes the analysis looks at.
  - A parse failure is an error message.
  - Expression subtrees hold no statements and are left out. This does not change the order in which the walk meets the remaining nodes.
- `datetime.now()` is not modelled. The timestamp is a parameter.
- Capturing the output of `print_tree` through `redirect_stdout` is not modelled. `print_tree` returns its lines, and the report adds a line break after each.
- The `__main__` driver and its progress messages are not modelled.
- Dictionary aliasing is not modelled.
  - The tree builder's `current_level` is a path into the tree value, not a reference to a nested dictionary.
  - The mutation `func['file'] = path` becomes a tagged copy of the record. No output of the script observes the mutated records in `files_info`.
- Tree.TreeIsPrunedFileSystem: proved only for file systems whose directories hold distinct names (`WellFormed`), which every real file system satisfies.
- Tree.GenerateTreeStructure: the `TypeError` the script raises when it goes through or into a `'file'` leaf is modelled as `None`. This needs a file and a directory of the same name in one directory.
- Report.GenerateSummaryReport: when building the tree fails, the result is `None`, where the script propagates the exception.
- Collect.CollectFiles: `extensions=None` is represented by the empty list, which `or` treats the same way.
- TreeRender.PrintTree: the loop of `print_tree` is modelled as recursion over values that returns its lines. The order of the lines is kept.
- TreeRender.OneLinePerNode: counts printed lines as elements of the returned sequence. A file or directory name that contains a line break would print as more than one physical line.
- Report.TreeListingOneLinePerNode: the same holds for the tree listing in the report.

Facts about the code that the model keeps:

- The line count is `len(content.splitlines())`.
  - It counts no line after a final line break, and none for an empty file.
  - `\r\n` is one boundary, and the other Unicode line boundaries count too.
- A file that does not parse has no line count at all: its record is the error record.
- Imports, functions and classes are gathered from the whole syntax tree, not only from the top level, because `ast.walk` visits every node.
