/** `ProjectCollector.analyze_python_file` (uniter.py:15-54): what one Python
    source file contributes to the report. Python's parser is not part of the
    model: a parsed module is given as an abstract syntax tree holding the
    statements the analysis looks at, and a parse failure as an error message. */
module Analysis {
  import opened Common

  /** A node of the syntax tree. `Other` stands for every other node kind
      (`if`, `for`, `try`, an `except` handler, an `async def`, ...) with the
      child nodes that hold statements; expression subtrees hold no statements
      and are left out, which does not change the relative order in which a
      breadth-first walk meets the remaining nodes. */
  datatype AstNode =
    | Import(names: seq<string>)
    | ImportFrom(modName: Option<string>, names: seq<string>)
    | FunctionDef(name: string, args: seq<string>, docstring: Option<string>, line: nat, body: seq<AstNode>)
    | ClassDef(name: string, docstring: Option<string>, line: nat, body: seq<AstNode>)
    | Other(children: seq<AstNode>)

  /** A parsed module: its top-level statements and `ast.get_docstring(tree)`. */
  datatype Module = Module(body: seq<AstNode>, docstring: Option<string>)

  /** What reading a file gives: the open/decode failure message, or the text
      together with what `ast.parse` makes of it. */
  datatype Source = Unreadable(message: string) | Text(content: string, parsed: Result<Module, string>)

  datatype FunctionInfo = FunctionInfo(name: string, args: seq<string>, docstring: Option<string>, line: nat)

  datatype ClassInfo = ClassInfo(name: string, methods: seq<string>, docstring: Option<string>, line: nat)

  /** The `analysis` dictionary, or `{'error': str(e)}`. */
  datatype Analysis =
    | Analysis(imports: seq<string>, functions: seq<FunctionInfo>, classes: seq<ClassInfo>,
               docstring: Option<string>, lines: nat)
    | AnalysisError(message: string)

  function Children(n: AstNode): seq<AstNode>
  {
    match n
    case Import(_) => []
    case ImportFrom(_, _) => []
    case FunctionDef(_, _, _, _, body) => body
    case ClassDef(_, _, _, body) => body
    case Other(children) => children
  }

  /** The module node itself, which `ast.walk(tree)` visits first. */
  function ModuleNode(m: Module): AstNode
  {
    Other(m.body)
  }

  function Size(n: AstNode): nat
    decreases n, 1
  {
    match n
    case Import(_) => 1
    case ImportFrom(_, _) => 1
    case FunctionDef(_, _, _, _, body) => 1 + ForestSize(body)
    case ClassDef(_, _, _, body) => 1 + ForestSize(body)
    case Other(children) => 1 + ForestSize(children)
  }

  function ForestSize(q: seq<AstNode>): nat
    decreases q, 0
  {
    if q == [] then 0 else Size(q[0]) + ForestSize(q[1..])
  }

  lemma SizeOfNode(n: AstNode)
    ensures Size(n) == 1 + ForestSize(Children(n))
  {
  }

  lemma {:induction false} ForestSizeAppend(a: seq<AstNode>, b: seq<AstNode>)
    ensures ForestSize(a + b) == ForestSize(a) + ForestSize(b)
  {
    if a != [] {
      assert (a + b)[1..] == a[1..] + b;
      ForestSizeAppend(a[1..], b);
    } else {
      assert a + b == b;
    }
  }

  /** The order in which `ast.walk` yields the nodes of the queue `q` and of
      everything below them: breadth first, taking nodes from the front of
      the queue and appending their children at the back. */
  function WalkOrder(q: seq<AstNode>): seq<AstNode>
    decreases ForestSize(q)
  {
    if q == [] then []
    else
      SizeOfNode(q[0]);
      ForestSizeAppend(q[1..], Children(q[0]));
      [q[0]] + WalkOrder(q[1..] + Children(q[0]))
  }

  /** Every node of the forest `q`, each parent before its children (pre-order). */
  function Nodes(q: seq<AstNode>): seq<AstNode>
    decreases ForestSize(q)
  {
    if q == [] then []
    else
      SizeOfNode(q[0]);
      [q[0]] + Nodes(Children(q[0])) + Nodes(q[1..])
  }

  /** The concatenation of `g(x)` over `xs`. */
  function Gather<X>(g: AstNode -> seq<X>, xs: seq<AstNode>): seq<X>
  {
    if xs == [] then [] else g(xs[0]) + Gather(g, xs[1..])
  }

  lemma {:induction false} GatherAppend<X>(g: AstNode -> seq<X>, a: seq<AstNode>, b: seq<AstNode>)
    ensures Gather(g, a + b) == Gather(g, a) + Gather(g, b)
  {
    if a != [] {
      assert (a + b)[1..] == a[1..] + b;
      GatherAppend(g, a[1..], b);
    } else {
      assert a + b == b;
    }
  }

  lemma {:induction false} NodesAppend(a: seq<AstNode>, b: seq<AstNode>)
    ensures Nodes(a + b) == Nodes(a) + Nodes(b)
    decreases ForestSize(a)
  {
    if a != [] {
      SizeOfNode(a[0]);
      assert (a + b)[1..] == a[1..] + b;
      NodesAppend(a[1..], b);
    } else {
      assert a + b == b;
    }
  }

  /** The breadth-first walk gathers the same items, as many times each, as
      a pre-order traversal: it visits every node exactly once. */
  lemma {:induction false} WalkGathersAll<X>(g: AstNode -> seq<X>, q: seq<AstNode>)
    ensures multiset(Gather(g, WalkOrder(q))) == multiset(Gather(g, Nodes(q)))
    decreases ForestSize(q)
  {
    if q != [] {
      var rest, kids := q[1..], Children(q[0]);
      SizeOfNode(q[0]);
      ForestSizeAppend(rest, kids);
      WalkGathersAll(g, rest + kids);
      NodesAppend(rest, kids);
      GatherAppend(g, Nodes(rest), Nodes(kids));
      GatherAppend(g, [q[0]], WalkOrder(rest + kids));
      GatherAppend(g, [q[0]] + Nodes(kids), Nodes(rest));
      GatherAppend(g, [q[0]], Nodes(kids));
    }
  }

  function Single(n: AstNode): seq<AstNode> { [n] }

  lemma {:induction false} GatherSingle(xs: seq<AstNode>)
    ensures Gather(Single, xs) == xs
  {
    if xs != [] { GatherSingle(xs[1..]); }
  }

  /** `ast.walk` visits every node of the tree exactly once. */
  lemma WalkVisitsEachNodeOnce(q: seq<AstNode>)
    ensures multiset(WalkOrder(q)) == multiset(Nodes(q))
  {
    WalkGathersAll(Single, q);
    GatherSingle(WalkOrder(q));
    GatherSingle(Nodes(q));
  }

  lemma {:induction false} NodesClosed(q: seq<AstNode>, n: AstNode, k: AstNode)
    requires n in Nodes(q) && k in Children(n)
    ensures k in Nodes(q)
    decreases ForestSize(q)
  {
    var kids := Children(q[0]);
    SizeOfNode(q[0]);
    if n == q[0] {
      NodesContains(kids, k);
    } else if n in Nodes(kids) {
      NodesClosed(kids, n, k);
    } else {
      NodesClosed(q[1..], n, k);
    }
  }

  lemma {:induction false} NodesContains(q: seq<AstNode>, k: AstNode)
    requires k in q
    ensures k in Nodes(q)
    decreases ForestSize(q)
  {
    SizeOfNode(q[0]);
    if q[0] != k { NodesContains(q[1..], k); }
  }

  // ---------------------------------------------------------------------
  // What one node contributes to the analysis lists

  /** `import a, b` gives one string per alias; `from m import a, b` gives the
      single string `"m.a, b"`; `from . import x` (no module) gives nothing. */
  function ImportStrings(n: AstNode): seq<string>
  {
    match n
    case Import(names) => names
    case ImportFrom(modName, names) =>
      if modName.Some? && modName.value != "" then [modName.value + "." + Join(", ", names)] else []
    case _ => []
  }

  function FunctionRecord(n: AstNode): seq<FunctionInfo>
  {
    if n.FunctionDef? then [FunctionInfo(n.name, n.args, n.docstring, n.line)] else []
  }

  /** The names of the `def` statements directly in a class body. */
  function MethodNames(body: seq<AstNode>): (r: seq<string>)
    ensures forall m :: m in r <==> exists k :: k in body && k.FunctionDef? && k.name == m
  {
    if body == [] then []
    else (if body[0].FunctionDef? then [body[0].name] else []) + MethodNames(body[1..])
  }

  /** The method names follow the class body in order, repeats included: the
      names of two runs of statements are those of each run, in order. */
  lemma {:induction false} MethodNamesAppend(a: seq<AstNode>, b: seq<AstNode>)
    ensures MethodNames(a + b) == MethodNames(a) + MethodNames(b)
  {
    if a == [] {
      assert a + b == b;
    } else {
      assert (a + b)[0] == a[0] && (a + b)[1..] == a[1..] + b;
      MethodNamesAppend(a[1..], b);
      Assoc((if a[0].FunctionDef? then [a[0].name] else []), MethodNames(a[1..]), MethodNames(b));
    }
  }

  /** One statement gives its name exactly when it is a `def`. */
  lemma MethodNamesOne(n: AstNode)
    ensures MethodNames([n]) == if n.FunctionDef? then [n.name] else []
  {
    assert [n][1..] == [];
  }

  function ClassRecord(n: AstNode): seq<ClassInfo>
  {
    if n.ClassDef? then [ClassInfo(n.name, MethodNames(n.body), n.docstring, n.line)] else []
  }

  /** Number of lines `str.splitlines` finds, Python's line boundaries being
      `\n`, `\r`, `\r\n`, `\v`, `\f`, `\x1c`-`\x1e`, `\x85`, U+2028 and U+2029. */
  predicate IsLineBreak(c: char)
  {
    c == '\n' || c == '\r' || c == '\U{0B}' || c == '\U{0C}' || c == '\U{1C}' || c == '\U{1D}'
    || c == '\U{1E}' || c == '\U{85}' || c == '\U{2028}' || c == '\U{2029}'
  }

  function FirstBreak(s: string): (i: nat)
    ensures i <= |s|
  {
    if s == [] || IsLineBreak(s[0]) then 0 else 1 + FirstBreak(s[1..])
  }

  /** `FirstBreak` finds the first line break, or the end when there is none. */
  lemma {:induction false} FirstBreakIsFirst(s: string)
    ensures FirstBreak(s) < |s| ==> IsLineBreak(s[FirstBreak(s)])
    ensures forall k :: 0 <= k < FirstBreak(s) ==> !IsLineBreak(s[k])
  {
    if s != [] && !IsLineBreak(s[0]) {
      FirstBreakIsFirst(s[1..]);
      forall k | 0 < k < FirstBreak(s) ensures !IsLineBreak(s[k]) {
        assert s[k] == s[1..][k - 1];
      }
    }
  }

  /** `s.splitlines()`. */
  function SplitLines(s: string): seq<string>
    decreases |s|
  {
    if s == [] then []
    else if FirstBreak(s) == |s| then [s]
    else [s[..FirstBreak(s)]] + SplitLines(s[FirstBreak(s) + BreakWidth(s, FirstBreak(s))..])
  }

  /** `\r\n` is one line boundary; every other boundary is one character. */
  function BreakWidth(s: string, i: nat): (w: nat)
    requires i < |s|
    ensures 1 <= w <= 2 && i + w <= |s|
  {
    if s[i] == '\r' && i + 1 < |s| && s[i + 1] == '\n' then 2 else 1
  }

  /** No line `splitlines` produces contains a line break. */
  lemma {:induction false} LinesHoldNoBreak(s: string)
    ensures forall k, j :: 0 <= k < |SplitLines(s)| && 0 <= j < |SplitLines(s)[k]| ==> !IsLineBreak(SplitLines(s)[k][j])
    decreases |s|
  {
    if s != [] {
      var i := FirstBreak(s);
      FirstBreakIsFirst(s);
      if i == |s| {
        assert SplitLines(s) == [s];
      } else {
        var width := BreakWidth(s, i);
        var rest := SplitLines(s[i + width..]);
        LinesHoldNoBreak(s[i + width..]);
        SplitAtBreak(s, i);
        forall k, j | 0 <= k < |SplitLines(s)| && 0 <= j < |SplitLines(s)[k]| ensures !IsLineBreak(SplitLines(s)[k][j]) {
          if k > 0 {
            assert SplitLines(s)[k] == rest[k - 1];
          }
        }
      }
    }
  }

  function CountChar(s: string, c: char): nat
  {
    if s == [] then 0 else (if s[0] == c then 1 else 0) + CountChar(s[1..], c)
  }

  /** On text whose only line break is `\n`, the line count is the number of
      `\n` plus one for a last line without a newline of its own. */
  lemma {:induction false} LineCountNewlines(s: string)
    requires forall k :: 0 <= k < |s| && IsLineBreak(s[k]) ==> s[k] == '\n'
    ensures |SplitLines(s)| == CountChar(s, '\n') + (if s != [] && s[|s| - 1] != '\n' then 1 else 0)
    decreases |s|
  {
    if s != [] {
      var i := FirstBreak(s);
      FirstBreakIsFirst(s);
      if i < |s| {
        var rest := s[i + 1..];
        SplitAtNewline(s, i);
        CountAtNewline(s, i);
        LineCountNewlines(rest);
        if rest != [] { assert rest[|rest| - 1] == s[|s| - 1]; }
      } else {
        CountCharNone(s, '\n');
      }
    }
  }

  /** `splitlines` cuts a text at its first `\n` when that is its first break. */
  lemma SplitAtNewline(s: string, i: nat)
    requires i == FirstBreak(s) && i < |s| && s[i] == '\n'
    ensures SplitLines(s) == [s[..i]] + SplitLines(s[i + 1..])
  {
    SplitAtBreak(s, i);
    assert s[i + BreakWidth(s, i)..] == s[i + 1..];
  }

  /** `splitlines` cuts a text at its first break. */
  lemma SplitAtBreak(s: string, i: nat)
    requires i == FirstBreak(s) && i < |s|
    ensures SplitLines(s) == [s[..i]] + SplitLines(s[i + BreakWidth(s, i)..])
  {
    assert s != [] && FirstBreak(s) != |s|;
  }

  lemma CountAtNewline(s: string, i: nat)
    requires i < |s| && s[i] == '\n'
    requires forall k :: 0 <= k < i ==> s[k] != '\n'
    ensures CountChar(s, '\n') == 1 + CountChar(s[i + 1..], '\n')
  {
    CountCharNone(s[..i], '\n');
    CountCharSplit(s[..i], s[i..], '\n');
    assert s == s[..i] + s[i..];
    assert s[i..][1..] == s[i + 1..];
  }

  lemma {:induction false} CountCharNone(s: string, c: char)
    requires forall k :: 0 <= k < |s| ==> s[k] != c
    ensures CountChar(s, c) == 0
  {
    if s != [] { CountCharNone(s[1..], c); }
  }

  lemma {:induction false} CountCharSplit(a: string, b: string, c: char)
    ensures CountChar(a + b, c) == CountChar(a, c) + CountChar(b, c)
  {
    if a != [] {
      assert (a + b)[1..] == a[1..] + b;
      CountCharSplit(a[1..], b, c);
    } else {
      assert a + b == b;
    }
  }

  /** The analysis of one Python file, as `analyze_python_file` builds it. */
  function Analyze(src: Source): Analysis
  {
    match src
    case Unreadable(message) => AnalysisError(message)
    case Text(content, parsed) =>
      match parsed
      case Err(message) => AnalysisError(message)
      case Ok(m) =>
        var walk := WalkOrder([ModuleNode(m)]);
        Analysis(Gather(ImportStrings, walk), Gather(FunctionRecord, walk), Gather(ClassRecord, walk),
                 m.docstring, |SplitLines(content)|)
  }

  /** `analyze_python_file`: read and parse the file, then one pass of
      `ast.walk` over the module, appending to the three lists as the node
      kinds come up. */
  method AnalyzePythonFile(src: Source) returns (a: Analysis)
    ensures a == Analyze(src)
  {
    match src {
      case Unreadable(message) =>
        a := AnalysisError(message);
      case Text(content, parsed) =>
        match parsed {
          case Err(message) =>
            a := AnalysisError(message);
          case Ok(m) =>
            var imports, functions, classes := WalkModule(m);
            a := Analysis(imports, functions, classes, m.docstring, |SplitLines(content)|);
        }
    }
  }

  /** The `for node in ast.walk(tree)` loop of `analyze_python_file`. */
  method WalkModule(m: Module) returns (imports: seq<string>, functions: seq<FunctionInfo>, classes: seq<ClassInfo>)
    ensures imports == Gather(ImportStrings, WalkOrder([ModuleNode(m)]))
    ensures functions == Gather(FunctionRecord, WalkOrder([ModuleNode(m)]))
    ensures classes == Gather(ClassRecord, WalkOrder([ModuleNode(m)]))
  {
    ghost var walk := WalkOrder([ModuleNode(m)]);
    imports, functions, classes := [], [], [];
    var todo := [ModuleNode(m)];
    while todo != []
      invariant Gather(ImportStrings, walk) == imports + Gather(ImportStrings, WalkOrder(todo))
      invariant Gather(FunctionRecord, walk) == functions + Gather(FunctionRecord, WalkOrder(todo))
      invariant Gather(ClassRecord, walk) == classes + Gather(ClassRecord, WalkOrder(todo))
      decreases ForestSize(todo)
    {
      var node := todo[0];
      ghost var before := todo;
      todo := todo[1..] + Children(node);
      WalkStep(before, ImportStrings);
      WalkStep(before, FunctionRecord);
      WalkStep(before, ClassRecord);
      ghost var imports0, functions0, classes0 := imports, functions, classes;
      match node {
        case Import(names) =>
          imports := imports + names;
        case ImportFrom(modName, names) =>
          if modName.Some? && modName.value != "" {
            imports := imports + [modName.value + "." + Join(", ", names)];
          }
        case FunctionDef(name, args, docstring, line, _) =>
          functions := functions + [FunctionInfo(name, args, docstring, line)];
        case ClassDef(name, docstring, line, body) =>
          classes := classes + [ClassInfo(name, MethodNames(body), docstring, line)];
        case Other(_) =>
      }
      assert imports == imports0 + ImportStrings(node);
      assert functions == functions0 + FunctionRecord(node);
      assert classes == classes0 + ClassRecord(node);
      Assoc(imports0, ImportStrings(node), Gather(ImportStrings, WalkOrder(todo)));
      Assoc(functions0, FunctionRecord(node), Gather(FunctionRecord, WalkOrder(todo)));
      Assoc(classes0, ClassRecord(node), Gather(ClassRecord, WalkOrder(todo)));
    }
  }

  /** One turn of the walk: the front node is gathered first, then the rest
      of the queue with the node's children appended. */
  lemma WalkStep<X>(q: seq<AstNode>, g: AstNode -> seq<X>)
    requires q != []
    ensures ForestSize(q[1..] + Children(q[0])) < ForestSize(q)
    ensures Gather(g, WalkOrder(q)) == g(q[0]) + Gather(g, WalkOrder(q[1..] + Children(q[0])))
  {
    SizeOfNode(q[0]);
    ForestSizeAppend(q[1..], Children(q[0]));
    GatherAppend(g, [q[0]], WalkOrder(q[1..] + Children(q[0])));
  }

  // ---------------------------------------------------------------------
  // Properties of the analysis of a parsed module

  lemma {:induction false} GatherMember<X>(g: AstNode -> seq<X>, xs: seq<AstNode>, n: AstNode, x: X)
    requires n in xs && x in g(n)
    ensures x in Gather(g, xs)
  {
    if xs[0] != n { GatherMember(g, xs[1..], n, x); }
  }

  lemma {:induction false} GatherSource<X>(g: AstNode -> seq<X>, xs: seq<AstNode>, x: X)
    requires x in Gather(g, xs)
    ensures exists n :: n in xs && x in g(n)
  {
    if x !in g(xs[0]) { GatherSource(g, xs[1..], x); }
  }

  lemma MultisetMember<X>(a: seq<X>, b: seq<X>, x: X)
    requires multiset(a) == multiset(b)
    ensures x in a <==> x in b
  {
    assert x in a <==> x in multiset(a);
    assert x in b <==> x in multiset(b);
  }

  /** Every `def` anywhere in the module (at top level, nested in another
      function, or in a class body) gives a function record, and every
      function record comes from such a `def`; the records found are those
      of a pre-order traversal, each as many times. */
  lemma FunctionsFromWholeTree(m: Module, content: string)
    ensures var a := Analyze(Text(content, Ok(m)));
      && multiset(a.functions) == multiset(Gather(FunctionRecord, Nodes([ModuleNode(m)])))
      && forall f :: f in a.functions <==>
           exists n :: n in Nodes([ModuleNode(m)]) && n.FunctionDef? && f == FunctionInfo(n.name, n.args, n.docstring, n.line)
  {
    var q := [ModuleNode(m)];
    var a := Analyze(Text(content, Ok(m)));
    assert a.functions == Gather(FunctionRecord, WalkOrder(q));
    WalkGathersAll(FunctionRecord, q);
    forall f ensures f in a.functions <==>
        exists n :: n in Nodes(q) && n.FunctionDef? && f == FunctionInfo(n.name, n.args, n.docstring, n.line)
    {
      FunctionRecordFound(q, f);
    }
  }

  /** A function record is gathered by the walk exactly when some `def` in
      the forest has it. */
  lemma FunctionRecordFound(q: seq<AstNode>, f: FunctionInfo)
    ensures f in Gather(FunctionRecord, WalkOrder(q)) <==>
      exists n :: n in Nodes(q) && n.FunctionDef? && f == FunctionInfo(n.name, n.args, n.docstring, n.line)
  {
    WalkGathersAll(FunctionRecord, q);
    MultisetMember(Gather(FunctionRecord, WalkOrder(q)), Gather(FunctionRecord, Nodes(q)), f);
    if f in Gather(FunctionRecord, Nodes(q)) {
      GatherSource(FunctionRecord, Nodes(q), f);
      var n :| n in Nodes(q) && f in FunctionRecord(n);
      assert n.FunctionDef? && f == FunctionInfo(n.name, n.args, n.docstring, n.line);
    }
    if exists n :: n in Nodes(q) && n.FunctionDef? && f == FunctionInfo(n.name, n.args, n.docstring, n.line) {
      var n :| n in Nodes(q) && n.FunctionDef? && f == FunctionInfo(n.name, n.args, n.docstring, n.line);
      GatherMember(FunctionRecord, Nodes(q), n, f);
    }
  }

  /** A method of a class is also listed among the module's functions: the
      walk reaches the `def` in the class body as it reaches any other. */
  lemma ClassMethodsAreFunctions(m: Module, content: string, c: ClassInfo, name: string)
    requires var a := Analyze(Text(content, Ok(m))); c in a.classes && name in c.methods
    ensures exists f :: f in Analyze(Text(content, Ok(m))).functions && f.name == name
  {
    var q := [ModuleNode(m)];
    var walk := WalkOrder(q);
    var a := Analyze(Text(content, Ok(m)));
    assert a.classes == Gather(ClassRecord, walk) && a.functions == Gather(FunctionRecord, walk);
    GatherSource(ClassRecord, walk, c);
    var n :| n in walk && c in ClassRecord(n);
    assert n.ClassDef? && c.methods == MethodNames(n.body);
    var k :| k in n.body && k.FunctionDef? && k.name == name;
    assert k in Children(n);
    WalkVisitsEachNodeOnce(q);
    MultisetMember(walk, Nodes(q), n);
    NodesClosed(q, n, k);
    MultisetMember(walk, Nodes(q), k);
    var f := FunctionInfo(k.name, k.args, k.docstring, k.line);
    assert f in FunctionRecord(k);
    GatherMember(FunctionRecord, walk, k, f);
    assert f in a.functions && f.name == name;
  }

  /** The module's import strings are those of every `import` and `from ...
      import` anywhere in the module, however deeply nested, each as many
      times as a pre-order traversal meets it; a string is listed exactly
      when some import statement of the module gives it. */
  lemma ImportsFromWholeTree(m: Module, content: string)
    ensures var a := Analyze(Text(content, Ok(m)));
      && multiset(a.imports) == multiset(Gather(ImportStrings, Nodes([ModuleNode(m)])))
      && forall s :: s in a.imports <==>
           exists n :: n in Nodes([ModuleNode(m)]) && (n.Import? || n.ImportFrom?) && s in ImportStrings(n)
  {
    var q := [ModuleNode(m)];
    var a := Analyze(Text(content, Ok(m)));
    assert a.imports == Gather(ImportStrings, WalkOrder(q));
    WalkGathersAll(ImportStrings, q);
    forall s ensures s in a.imports <==>
        exists n :: n in Nodes(q) && (n.Import? || n.ImportFrom?) && s in ImportStrings(n)
    {
      ImportStringFound(q, s);
    }
  }

  /** An import string is gathered by the walk exactly when some import
      statement in the forest gives it. */
  lemma ImportStringFound(q: seq<AstNode>, s: string)
    ensures s in Gather(ImportStrings, WalkOrder(q)) <==>
      exists n :: n in Nodes(q) && (n.Import? || n.ImportFrom?) && s in ImportStrings(n)
  {
    WalkGathersAll(ImportStrings, q);
    MultisetMember(Gather(ImportStrings, WalkOrder(q)), Gather(ImportStrings, Nodes(q)), s);
    if s in Gather(ImportStrings, Nodes(q)) {
      GatherSource(ImportStrings, Nodes(q), s);
      var n :| n in Nodes(q) && s in ImportStrings(n);
      assert n.Import? || n.ImportFrom?;
    }
    if exists n :: n in Nodes(q) && (n.Import? || n.ImportFrom?) && s in ImportStrings(n) {
      var n :| n in Nodes(q) && (n.Import? || n.ImportFrom?) && s in ImportStrings(n);
      GatherMember(ImportStrings, Nodes(q), n, s);
    }
  }

  /** A queue of import statements is walked in queue order. */
  lemma {:induction false} WalkImportsInOrder(q: seq<AstNode>)
    requires forall k :: 0 <= k < |q| ==> q[k].Import? || q[k].ImportFrom?
    ensures WalkOrder(q) == q
    decreases |q|
  {
    if q != [] {
      assert q[1..] + Children(q[0]) == q[1..];
      WalkImportsInOrder(q[1..]);
    }
  }

  /** In a module made of import statements, the import strings come out in
      source order, statement by statement. */
  lemma ImportsInSourceOrder(m: Module, content: string)
    requires forall k :: 0 <= k < |m.body| ==> m.body[k].Import? || m.body[k].ImportFrom?
    ensures Analyze(Text(content, Ok(m))).imports == Gather(ImportStrings, m.body)
  {
    var q := [ModuleNode(m)];
    assert WalkOrder(q) == [ModuleNode(m)] + WalkOrder(m.body) by {
      SizeOfNode(q[0]);
      assert q[1..] + Children(q[0]) == m.body;
    }
    WalkImportsInOrder(m.body);
    GatherAppend(ImportStrings, [ModuleNode(m)], m.body);
  }

  /** `from m import a, b` is recorded as one string that starts with the
      module and a dot and then lists the imported names; they can be read back. */
  lemma FromImportIsOneString(modName: string, names: seq<string>)
    requires modName != "" && names != []
    requires forall k :: 0 <= k < |names| ==> ',' !in names[k]
    ensures var r := ImportStrings(ImportFrom(Some(modName), names));
      && |r| == 1
      && r[0][..|modName|] == modName && r[0][|modName|] == '.'
      && SplitNames(r[0][|modName| + 1..]) == names
  {
    var s := modName + "." + Join(", ", names);
    assert s[|modName| + 1..] == Join(", ", names);
    SplitJoinNames(names);
  }

  /** `from os import path, sep` gives the single string `"os.path, sep"`. */
  lemma FromOsImportPathSep()
    ensures ImportStrings(ImportFrom(Some("os"), ["path", "sep"])) == ["os.path, sep"]
  {
    assert ["path", "sep"][1..] == ["sep"];
    assert Join(", ", ["path", "sep"]) == "path, sep";
    assert "os" + "." + "path, sep" == "os.path, sep";
  }
}
