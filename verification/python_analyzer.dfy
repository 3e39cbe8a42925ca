/** The syntax-tree analyzer for Python. Parsing and `ast.walk` are outside the model:
    the analyzer receives the parsed module with its import, function and class nodes
    already listed in walk order, and its top-level statements. */
module PythonAnalyzer {
  import opened Core
  import opened Text
  import opened Assembly
  import opened Envelopes

  // ---------------------------------------------------------------------------
  // Abstract syntax

  /** What an expression statement calls: a plain name, an attribute, or anything else. */
  datatype Callee = NameCallee(id: string) | AttributeCallee | OtherCallee

  /** An assignment target: a plain name or anything else (subscript, tuple, ...). */
  datatype Target = NameTarget(id: string) | OtherTarget

  /** A statement, reduced to what the analyzer inspects. An expression statement whose
      value is not a call is `Other`, and so is `async def` (not an `ast.FunctionDef`). */
  datatype Stmt =
    | Return
    | Assign(targets: seq<Target>)
    | AugAssign
    | If
    | For
    | While
    | Try
    | Raise
    | Assert
    | CallStmt(callee: Callee)
    | With
    | ImportStmt
    | DefStmt(name: string)
    | ClassStmt
    | Other

  datatype Alias = Alias(name: string, asname: Option<string>)

  datatype ImportNode =
    | Import(names: seq<Alias>)
    | ImportFrom(source: Option<string>, names: seq<Alias>)

  datatype BaseExpr = BaseName(id: string) | BaseOther

  datatype FunctionDef = FunctionDef(name: string, params: seq<string>, docstring: Option<string>, body: seq<Stmt>)

  datatype ClassDef = ClassDef(name: string, bases: seq<BaseExpr>, docstring: Option<string>, body: seq<Stmt>)

  /** A parsed module: its docstring, its import, function and class nodes in `ast.walk`
      order (nested ones included), and its top-level statements. */
  datatype Module = Module(
    docstring: Option<string>,
    imports: seq<ImportNode>,
    functions: seq<FunctionDef>,
    classes: seq<ClassDef>,
    body: seq<Stmt>)

  /** What parsing and analysis produced: a tree, a `SyntaxError` (message and line
      number, which Python may leave as `None`), or any other exception. */
  datatype Outcome =
    | Parsed(tree: Module)
    | SyntaxFailure(message: string, line: Option<nat>)
    | Failed(message: string)

  // ---------------------------------------------------------------------------
  // Records of the result lists

  datatype ImportInfo =
    | PlainImport(name: string, alias: Option<string>)
    | FromImport(name: string, alias: Option<string>, source: Option<string>)

  datatype FunctionInfo = FunctionInfo(name: string, args: seq<string>, docstring: Option<string>, description: string)

  datatype ClassInfo = ClassInfo(name: string, bases: seq<string>, methods: seq<string>, docstring: Option<string>, description: string)

  /** A module-level variable; its `type` is "variable" and its `scope` "module". */
  datatype VariableInfo = VariableInfo(name: string)

  type PythonEnvelope = Envelope<FunctionInfo, ClassInfo, VariableInfo, ImportInfo>

  // ---------------------------------------------------------------------------
  // Imports

  /** A from-import is named "module.name", or just "name" without a module. */
  function ImportedName(source: Option<string>, name: string): string
  {
    if Truthy(source) then source.value + "." + name else name
  }

  function NodeImports(node: ImportNode): (r: seq<ImportInfo>)
    ensures |r| == |node.names|
    ensures forall k :: 0 <= k < |r| ==> r[k].alias == node.names[k].asname
  {
    match node
    case Import(names) =>
      seq(|names|, k requires 0 <= k < |names| => PlainImport(names[k].name, names[k].asname))
    case ImportFrom(m, names) =>
      seq(|names|, k requires 0 <= k < |names| => FromImport(ImportedName(m, names[k].name), names[k].asname, m))
  }

  /** How each alias of an import statement is recorded. */
  lemma ImportNaming(node: ImportNode, k: nat)
    requires k < |node.names|
    ensures node.Import? ==> NodeImports(node)[k] == PlainImport(node.names[k].name, node.names[k].asname)
    ensures node.ImportFrom? && Truthy(node.source) ==>
      NodeImports(node)[k].name == node.source.value + "." + node.names[k].name
    ensures node.ImportFrom? && node.source.None? ==> NodeImports(node)[k].name == node.names[k].name
    ensures node.ImportFrom? ==> NodeImports(node)[k].FromImport? && NodeImports(node)[k].source == node.source
  {
  }

  /** All aliases of all import nodes, node by node. */
  function ImportInfos(nodes: seq<ImportNode>): (r: seq<ImportInfo>)
    ensures r == [] <==> forall k :: 0 <= k < |nodes| ==> nodes[k].names == []
    ensures nodes != [] ==> |nodes[0].names| <= |r| && r[..|nodes[0].names|] == NodeImports(nodes[0])
  {
    if nodes == [] then [] else NodeImports(nodes[0]) + ImportInfos(nodes[1..])
  }

  /** A single import node contributes exactly its own records. */
  lemma ImportInfosOne(node: ImportNode)
    ensures ImportInfos([node]) == NodeImports(node)
  {
    assert [node][1..] == [];
  }

  /** Import records follow the walk order: those of a concatenation of nodes are those
      of each part, in turn. */
  lemma {:induction false} ImportInfosConcat(a: seq<ImportNode>, b: seq<ImportNode>)
    ensures ImportInfos(a + b) == ImportInfos(a) + ImportInfos(b)
    decreases |a|
  {
    if a == [] {
      assert a + b == b;
    } else {
      var ab := a + b;
      assert ab[0] == a[0] && ab[1..] == a[1..] + b;
      ImportInfosConcat(a[1..], b);
      var first := NodeImports(a[0]);
      assert ImportInfos(ab) == first + (ImportInfos(a[1..]) + ImportInfos(b));
      PrependAssoc(ImportInfos(ab), ImportInfos(a), first, ImportInfos(a[1..]), ImportInfos(b));
    }
  }

  function ImportNames(infos: seq<ImportInfo>): (r: seq<string>)
    ensures |r| == |infos|
    ensures forall k :: 0 <= k < |infos| ==> r[k] == infos[k].name
  {
    if infos == [] then [] else [infos[0].name] + ImportNames(infos[1..])
  }

  function ImportsSentence(infos: seq<ImportInfo>): string
  {
    "The code imports the following modules: " + Join(ImportNames(infos), ", ") + "."
  }

  // ---------------------------------------------------------------------------
  // Functions

  // The fixed descriptions of `analyze_function_body`; the longer ones are written as
  // two literals each, which keeps the letter-level facts about them cheap to prove.
  const ReturnsValue := "Returns a value."
  const AssignsValues := "Assigns value(s) " + "to variable(s)."
  const UpdatesVariable := "Updates a variable value."
  const HasConditional := "Contains a conditional " + "(if) statement."
  const HasForLoop := "Contains a for loop."
  const HasWhileLoop := "Contains a while loop."
  const HasTryBlock := "Contains a try/except " + "block for error handling."
  const RaisesException := "Raises an exception."
  const HasAssertion := "Contains an assertion."
  const CallsFunctionMarker := "Calls function"

  /** One entry of `analyze_function_body`: statements it does not recognise add none. */
  function DescribeBodyStmt(s: Stmt): (r: Option<string>)
    ensures r.None? <==>
      s.With? || s.ImportStmt? || s.DefStmt? || s.ClassStmt? || s.Other? || (s.CallStmt? && !s.callee.NameCallee?)
    ensures s.CallStmt? && s.callee.NameCallee? ==> r == Some(CallsFunctionMarker + " " + Quoted(s.callee.id) + ".")
  {
    match s
    case Return => Some(ReturnsValue)
    case Assign(_) => Some(AssignsValues)
    case AugAssign => Some(UpdatesVariable)
    case If => Some(HasConditional)
    case For => Some(HasForLoop)
    case While => Some(HasWhileLoop)
    case Try => Some(HasTryBlock)
    case Raise => Some(RaisesException)
    case Assert => Some(HasAssertion)
    case CallStmt(NameCallee(id)) =>
      assert CallsFunctionMarker + " '" + id + "'." == CallsFunctionMarker + " " + Quoted(id) + ".";
      Some(CallsFunctionMarker + " '" + id + "'.")
    case _ => None
  }

  /** The statement descriptions of a function body, in body order. */
  function BodyStatements(body: seq<Stmt>): (r: seq<string>)
    ensures |r| <= |body|
    ensures r == [] <==> forall k :: 0 <= k < |body| ==> DescribeBodyStmt(body[k]).None?
  {
    if body == [] then []
    else
      (match DescribeBodyStmt(body[0]) case Some(d) => [d] case None => []) + BodyStatements(body[1..])
  }

  const ReturnClause := " and returns a calculated result"
  const CallsClause := " and calls other functions to perform its work"
  const VariousClause := " and performs various operations"

  /** The behaviour clause, tested as `analyze_function` tests it: list membership of
      "Returns a value" (without the final period), then a substring test. */
  function BehaviourClause(statements: seq<string>): (r: string)
    ensures r == ReturnClause || r == CallsClause || r == VariousClause || r == ""
    ensures r == "" <==> statements == []
    ensures r == CallsClause ==> AnyMentionsCall(statements)
  {
    if "Returns a value" in statements then ReturnClause
    else if AnyMentionsCall(statements) then CallsClause
    else if statements != [] then VariousClause
    else ""
  }

  /** `any('Calls function' in s for s in statements)`. */
  predicate AnyMentionsCall(statements: seq<string>)
  {
    statements != [] && (Contains(statements[0], CallsFunctionMarker) || AnyMentionsCall(statements[1..]))
  }

  predicate CallsByName(s: Stmt)
  {
    s.CallStmt? && s.callee.NameCallee?
  }

  /** A described statement mentions "Calls function" exactly when it is a call by a
      plain name: each fixed description lacks one letter of "Calls function". */
  lemma DescriptionMentionsCall(s: Stmt)
    requires DescribeBodyStmt(s).Some?
    ensures Contains(DescribeBodyStmt(s).value, CallsFunctionMarker) <==> CallsByName(s)
  {
    if CallsByName(s) {
      var id := s.callee.id;
      assert DescribeBodyStmt(s).value == CallsFunctionMarker + (" '" + id + "'.");
      StartsWithLeft(CallsFunctionMarker, " '" + id + "'.");
    } else {
      FixedDescriptionLacksMarker(s);
    }
  }

  /** No fixed description contains "Calls function": each lacks one of its letters. */
  lemma FixedDescriptionLacksMarker(s: Stmt)
    requires DescribeBodyStmt(s).Some? && !CallsByName(s)
    ensures !Contains(DescribeBodyStmt(s).value, CallsFunctionMarker)
  {
    match s
    case Return => ReturnsValueLacksMarker();
    case Assign(_) => AssignsValuesLacksMarker();
    case AugAssign => UpdatesVariableLacksMarker();
    case If => HasConditionalLacksMarker();
    case For => HasForLoopLacksMarker();
    case While => HasWhileLoopLacksMarker();
    case Try => HasTryBlockLacksMarker();
    case Raise => RaisesExceptionLacksMarker();
    case Assert => HasAssertionLacksMarker();
  }

  lemma ReturnsValueLacksMarker()
    ensures !Contains(ReturnsValue, CallsFunctionMarker)
  {
    LacksMarker(ReturnsValue, 'C');
  }

  lemma AssignsValuesLacksMarker()
    ensures !Contains(AssignsValues, CallsFunctionMarker)
  {
    LacksMarker(AssignsValues, 'C');
  }

  lemma UpdatesVariableLacksMarker()
    ensures !Contains(UpdatesVariable, CallsFunctionMarker)
  {
    LacksMarker(UpdatesVariable, 'C');
  }

  lemma HasConditionalLacksMarker()
    ensures !Contains(HasConditional, CallsFunctionMarker)
  {
    LacksMarker(HasConditional, 'u');
  }

  lemma HasForLoopLacksMarker()
    ensures !Contains(HasForLoop, CallsFunctionMarker)
  {
    LacksMarker(HasForLoop, 'u');
  }

  lemma HasWhileLoopLacksMarker()
    ensures !Contains(HasWhileLoop, CallsFunctionMarker)
  {
    LacksMarker(HasWhileLoop, 'u');
  }

  lemma HasTryBlockLacksMarker()
    ensures !Contains(HasTryBlock, CallsFunctionMarker)
  {
    LacksMarker(HasTryBlock, 'u');
  }

  lemma RaisesExceptionLacksMarker()
    ensures !Contains(RaisesException, CallsFunctionMarker)
  {
    LacksMarker(RaisesException, 'C');
  }

  lemma HasAssertionLacksMarker()
    ensures !Contains(HasAssertion, CallsFunctionMarker)
  {
    LacksMarker(HasAssertion, 'u');
  }

  lemma LacksMarker(d: string, c: char)
    requires c in CallsFunctionMarker && c !in d
    ensures !Contains(d, CallsFunctionMarker)
  {
    LacksCharOf(d, CallsFunctionMarker, c);
  }

  /** No description is the bare "Returns a value": each is longer. */
  lemma DescriptionNotBareReturn(s: Stmt)
    requires DescribeBodyStmt(s).Some?
    ensures DescribeBodyStmt(s).value != "Returns a value"
  {
    assert |DescribeBodyStmt(s).value| > |"Returns a value"|;
  }

  /** What the behaviour clause of a function says about its body. The return clause is
      never produced: "Returns a value" never equals an entry, all of which end in ".". */
  lemma {:induction false} FunctionBehaviour(body: seq<Stmt>)
    ensures BehaviourClause(BodyStatements(body)) != ReturnClause
    ensures BehaviourClause(BodyStatements(body)) == CallsClause <==>
      exists k :: 0 <= k < |body| && CallsByName(body[k])
    ensures BehaviourClause(BodyStatements(body)) == VariousClause <==>
      && (forall k :: 0 <= k < |body| ==> !CallsByName(body[k]))
      && (exists k :: 0 <= k < |body| && DescribeBodyStmt(body[k]).Some?)
    ensures BehaviourClause(BodyStatements(body)) == "" <==>
      forall k :: 0 <= k < |body| ==> DescribeBodyStmt(body[k]).None?
  {
    BodyStatementsFacts(body);
  }

  lemma BodyStatementsFacts(body: seq<Stmt>)
    ensures "Returns a value" !in BodyStatements(body)
    ensures AnyMentionsCall(BodyStatements(body)) <==> exists k :: 0 <= k < |body| && CallsByName(body[k])
  {
    NoBareReturn(body);
    MentionsIffCalls(body);
  }

  lemma {:induction false} NoBareReturn(body: seq<Stmt>)
    ensures "Returns a value" !in BodyStatements(body)
    decreases |body|
  {
    if body != [] {
      NoBareReturn(body[1..]);
      if DescribeBodyStmt(body[0]).Some? {
        DescriptionNotBareReturn(body[0]);
      }
    }
  }

  lemma {:induction false} MentionsIffCalls(body: seq<Stmt>)
    ensures AnyMentionsCall(BodyStatements(body)) <==> exists k :: 0 <= k < |body| && CallsByName(body[k])
    decreases |body|
  {
    if body != [] {
      MentionsIffCalls(body[1..]);
      var rest := BodyStatements(body[1..]);
      var all := BodyStatements(body);
      match DescribeBodyStmt(body[0])
      case None =>
        assert all == rest;
        assert !CallsByName(body[0]);
      case Some(d) =>
        DescriptionMentionsCall(body[0]);
        assert all == [d] + rest;
        assert all[0] == d && all[1..] == rest;
      ShiftCalls(body);
    }
  }

  /** A call by name sits at the head of the body or in its tail. */
  lemma ShiftCalls(body: seq<Stmt>)
    requires body != []
    ensures (exists k :: 0 <= k < |body| && CallsByName(body[k])) <==>
      CallsByName(body[0]) || exists k :: 0 <= k < |body[1..]| && CallsByName(body[1..][k])
  {
    if exists k :: 0 <= k < |body| && CallsByName(body[k]) {
      var k :| 0 <= k < |body| && CallsByName(body[k]);
      if k > 0 {
        assert body[1..][k - 1] == body[k];
      }
    }
    if exists k :: 0 <= k < |body[1..]| && CallsByName(body[1..][k]) {
      var k :| 0 <= k < |body[1..]| && CallsByName(body[1..][k]);
      assert body[k + 1] == body[1..][k];
    }
  }

  const Defines := "This defines "
  const MainDefinition := Defines + "the main function that serves as the program's entry point"
  const SpecialBehaviour := " that handles specific object behavior"
  const NoParams := " that doesn't require any input parameters"
  const OneParam := " that takes one input parameter called "

  /** How the function is named: `main`, a dunder name, or any other name. */
  function NameClause(name: string): (r: string)
    ensures StartsWith(r, Defines)
    ensures name == "main" ==> r == MainDefinition
    ensures name != "main" && StartsWith(name, "__") ==>
      r == Defines + "a special method " + Quoted(name) + SpecialBehaviour
    ensures name != "main" && !StartsWith(name, "__") ==> r == Defines + "a function called " + Quoted(name)
  {
    if name == "main" then
      StartsWithLeft(Defines, "the main function that serves as the program's entry point");
      MainDefinition
    else
      var rest :=
        if StartsWith(name, "__") then "a special method " + Quoted(name) + SpecialBehaviour
        else "a function called " + Quoted(name);
      StartsWithLeft(Defines, rest);
      Defines + rest
  }

  /** What the function takes: nothing, one named parameter, or a count and the names. */
  function ParamClause(args: seq<string>): (r: string)
    ensures |args| == 0 ==> r == NoParams
    ensures |args| == 1 ==> r == OneParam + Quoted(args[0])
    ensures |args| >= 2 ==> StartsWith(r, ParamCount(|args|)) && r[|ParamCount(|args|)|..] == Join(args, ", ")
  {
    if |args| == 0 then NoParams
    else if |args| == 1 then OneParam + Quoted(args[0])
    else
      StartsWithLeft(ParamCount(|args|), Join(args, ", "));
      ParamCount(|args|) + Join(args, ", ")
  }

  function ParamCount(n: nat): string
  {
    " that takes " + NatToString(n) + " input parameters: "
  }

  /** `analyze_function`: the record of one function definition. Its description is the
      name clause, the parameter clause, the behaviour clause of its body and a final ".". */
  function AnalyzeFunction(f: FunctionDef): (r: FunctionInfo)
    ensures r.name == f.name && r.args == f.params && r.docstring == f.docstring
    ensures r.description == NameClause(f.name) + ParamClause(f.params) + BehaviourClause(BodyStatements(f.body)) + "."
    ensures StartsWith(r.description, NameClause(f.name)) && EndsWith(r.description, ".")
  {
    var n := NameClause(f.name);
    var rest := ParamClause(f.params) + BehaviourClause(BodyStatements(f.body)) + ".";
    StartsWithLeft(n, rest);
    assert EndsWith(rest, ".");
    EndsWithPrepend(rest, ".", n);
    PrependThree(n, ParamClause(f.params), BehaviourClause(BodyStatements(f.body)), ".");
    FunctionInfo(f.name, f.params, f.docstring, n + rest)
  }

  /** Every description but that of `main` quotes the function's name. */
  lemma FunctionNaming(f: FunctionDef)
    requires f.name != "main"
    ensures Contains(AnalyzeFunction(f).description, Quoted(f.name))
  {
    var q := Quoted(f.name);
    var rest := ParamClause(f.params) + BehaviourClause(BodyStatements(f.body)) + ".";
    var named := if StartsWith(f.name, "__") then "a special method " + q + SpecialBehaviour
                 else "a function called " + q;
    ContainsSelf(q);
    if StartsWith(f.name, "__") {
      ContainsRight("a special method ", q, q);
      ContainsLeft("a special method " + q, SpecialBehaviour, q);
    } else {
      ContainsRight("a function called ", q, q);
    }
    ContainsRight(Defines, named, q);
    assert NameClause(f.name) == Defines + named;
    ContainsLeft(NameClause(f.name), rest, q);
  }

  /** A parameter list of two or more names states their number, and the names can be
      split back out of it when none contains the ", " separator. */
  lemma ParamListRoundTrip(args: seq<string>)
    requires |args| >= 2
    requires forall k :: 0 <= k < |args| ==> !Contains(args[k], ", ")
    ensures var p := ParamClause(args);
      && StartsWith(p, ParamCount(|args|))
      && SplitOn(p[|ParamCount(|args|)|..], ", ") == args
      && DigitsValue(NatToString(|args|)) == |args|
  {
    var p := ParamClause(args);
    var count := ParamCount(|args|);
    StartsWithLeft(count, Join(args, ", "));
    assert p[|count|..] == Join(args, ", ");
    SplitJoin(args, ", ");
    NatToStringRoundTrip(|args|);
  }

  // ---------------------------------------------------------------------------
  // Classes

  /** The base classes written as plain names, in order; other base expressions are
      skipped. A name is recorded once for each time it is written. */
  function PlainBases(bases: seq<BaseExpr>): (r: seq<string>)
    ensures |r| <= |bases|
    ensures forall n :: n in r <==> BaseName(n) in bases
    ensures forall n :: multiset(r)[n] == multiset(bases)[BaseName(n)]
  {
    if bases == [] then []
    else
      assert bases == [bases[0]] + bases[1..];
      (if bases[0].BaseName? then [bases[0].id] else []) + PlainBases(bases[1..])
  }

  /** Bases are recorded one by one in the order written: those of a concatenation are
      those of each part, in turn. */
  lemma {:induction false} PlainBasesConcat(a: seq<BaseExpr>, b: seq<BaseExpr>)
    ensures PlainBases(a + b) == PlainBases(a) + PlainBases(b)
    decreases |a|
  {
    if a == [] {
      assert a + b == b;
    } else {
      var ab := a + b;
      assert ab[0] == a[0] && ab[1..] == a[1..] + b;
      PlainBasesConcat(a[1..], b);
      var first := if a[0].BaseName? then [a[0].id] else [];
      assert PlainBases(ab) == first + (PlainBases(a[1..]) + PlainBases(b));
      PrependAssoc(PlainBases(ab), PlainBases(a), first, PlainBases(a[1..]), PlainBases(b));
    }
  }

  /** The names of the `def` statements directly in a body (nested ones are not seen), in
      order, each as often as it is defined. */
  function MethodNames(body: seq<Stmt>): (r: seq<string>)
    ensures |r| <= |body|
    ensures forall n :: n in r <==> DefStmt(n) in body
    ensures forall n :: multiset(r)[n] == multiset(body)[DefStmt(n)]
  {
    if body == [] then []
    else
      assert body == [body[0]] + body[1..];
      (if body[0].DefStmt? then [body[0].name] else []) + MethodNames(body[1..])
  }

  /** Methods are recorded one by one in body order: those of a concatenation are those of
      each part, in turn. */
  lemma {:induction false} MethodNamesConcat(a: seq<Stmt>, b: seq<Stmt>)
    ensures MethodNames(a + b) == MethodNames(a) + MethodNames(b)
    decreases |a|
  {
    if a == [] {
      assert a + b == b;
    } else {
      var ab := a + b;
      assert ab[0] == a[0] && ab[1..] == a[1..] + b;
      MethodNamesConcat(a[1..], b);
      var first := if a[0].DefStmt? then [a[0].name] else [];
      assert MethodNames(ab) == first + (MethodNames(a[1..]) + MethodNames(b));
      PrependAssoc(MethodNames(ab), MethodNames(a), first, MethodNames(a[1..]), MethodNames(b));
    }
  }

  function InheritsPart(bases: seq<string>): string
  {
    if bases != [] then " inherits from " + Join(bases, ", ") else ""
  }

  /** The method count and list, or "none" when there are no methods. */
  function MethodsPart(methods: seq<string>): string
  {
    " with " + NatToString(|methods|) + " method(s): " + (if methods != [] then Join(methods, ", ") else "none") + "."
  }

  function DocstringPart(docstring: Option<string>): string
  {
    if Truthy(docstring) then " Docstring: " + Quoted(docstring.value) else ""
  }

  /** `analyze_class`: the record of one class definition. */
  function AnalyzeClass(c: ClassDef): (r: ClassInfo)
    ensures r.name == c.name && r.docstring == c.docstring
    ensures r.bases == PlainBases(c.bases) && r.methods == MethodNames(c.body)
    ensures forall n :: n in r.bases <==> BaseName(n) in c.bases
    ensures forall n :: n in r.methods <==> DefStmt(n) in c.body
  {
    var bases := PlainBases(c.bases);
    var methods := MethodNames(c.body);
    var d := "Class " + Quoted(c.name) + InheritsPart(bases) + MethodsPart(methods) + DocstringPart(c.docstring);
    ClassInfo(c.name, bases, methods, c.docstring, d)
  }

  /** Where each part of a class description sits: the quoted class name first, then the
      bases when there are any, then the method count with the method names (or "none")
      and a ".", and last the docstring when there is one. */
  lemma ClassDescriptionShape(c: ClassDef)
    ensures var r := AnalyzeClass(c);
      var d := r.description;
      var head := "Class " + Quoted(c.name);
      var at := |head| + (if r.bases == [] then 0 else |" inherits from " + Join(r.bases, ", ")|);
      var methods := " with " + NatToString(|r.methods|) + " method(s): "
                     + (if r.methods == [] then "none" else Join(r.methods, ", ")) + ".";
      && StartsWith(d, head)
      && (r.bases != [] ==> OccursAt(d, " inherits from " + Join(r.bases, ", ") + " with ", |head|))
      && (r.bases == [] ==> OccursAt(d, " with ", |head|))
      && OccursAt(d, methods, at)
      && (Truthy(c.docstring) ==> EndsWith(d, " Docstring: " + Quoted(c.docstring.value)))
      && (!Truthy(c.docstring) ==> EndsWith(d, "."))
      && |d| == at + |methods| + |DocstringPart(c.docstring)|
  {
    var r := AnalyzeClass(c);
    var head := "Class " + Quoted(c.name);
    var inh := InheritsPart(r.bases);
    var methods := MethodsPart(r.methods);
    assert methods == " with " + NatToString(|r.methods|) + " method(s): "
                      + (if r.methods == [] then "none" else Join(r.methods, ", ")) + ".";
    DescriptionParts(head, inh, methods, DocstringPart(c.docstring));
  }

  /** Where the parts of a four-part description sit. */
  lemma DescriptionParts(head: string, inh: string, methods: string, doc: string)
    requires StartsWith(methods, " with ") && EndsWith(methods, ".")
    ensures var d := head + inh + methods + doc;
      && StartsWith(d, head)
      && OccursAt(d, inh + " with ", |head|)
      && OccursAt(d, methods, |head| + |inh|)
      && EndsWith(d, doc)
      && (doc == "" ==> EndsWith(d, "."))
      && |d| == |head| + |inh| + |methods| + |doc|
  {
    var d := head + inh + methods + doc;
    assert d[..|head|] == head;
    assert d[|head| + |inh|..|head| + |inh| + |methods|] == methods;
    assert d[|head|..|head| + |inh| + 6] == inh + methods[..6];
    assert d[|d| - |doc|..] == doc;
    if doc == "" {
      assert d[|d| - 1..] == methods[|methods| - 1..];
    }
  }

  // ---------------------------------------------------------------------------
  // Module-level statements

  predicate IsDefinition(s: Stmt)
  {
    s.ImportStmt? || s.DefStmt? || s.ClassStmt?
  }

  /** `analyze_statement`: a clause for one module-level statement; never empty. */
  function AnalyzeStatement(s: Stmt): (r: string)
    ensures r != ""
    ensures s.CallStmt? && s.callee.NameCallee? && s.callee.id !in {"print", "input", "raw_input", "open", "file"} ==>
      r == "calls the '" + s.callee.id + "' function"
  {
    match s
    case CallStmt(NameCallee(id)) =>
      if id == "print" then "displays output to the user"
      else if id in {"input", "raw_input"} then "gets input from the user"
      else if id in {"open", "file"} then "works with files"
      else "calls the '" + id + "' function"
    case CallStmt(AttributeCallee) => "calls a method or function"
    case If => "makes decisions using conditional logic"
    case For => "repeats actions using a for loop"
    case While => "repeats actions using a while loop"
    case Try => "handles potential errors safely"
    case With => "Uses a context manager (with statement)."
    case _ => "Contains executable code."
  }

  const AssignClause := "Variable assignment at module level."

  function MainClause(s: Stmt): string
  {
    if s.Assign? then AssignClause else AnalyzeStatement(s)
  }

  /** The module-level statements that are not imports, `def`s or classes, in order,
      each as often as it occurs. */
  function CodeStatements(body: seq<Stmt>): (r: seq<Stmt>)
    ensures |r| <= |body|
    ensures forall k :: 0 <= k < |r| ==> !IsDefinition(r[k])
    ensures forall s :: s in body && !IsDefinition(s) <==> s in r
    ensures forall s :: !IsDefinition(s) ==> multiset(r)[s] == multiset(body)[s]
  {
    if body == [] then []
    else
      assert body == [body[0]] + body[1..];
      (if IsDefinition(body[0]) then [] else [body[0]]) + CodeStatements(body[1..])
  }

  /** A single statement is code exactly when it is not a definition. */
  lemma CodeStatementsOne(s: Stmt)
    ensures CodeStatements([s]) == if IsDefinition(s) then [] else [s]
  {
    assert [s][1..] == [];
  }

  /** Code statements keep the body's order: those of a concatenation are those of each
      part, in turn. */
  lemma {:induction false} CodeStatementsConcat(a: seq<Stmt>, b: seq<Stmt>)
    ensures CodeStatements(a + b) == CodeStatements(a) + CodeStatements(b)
    decreases |a|
  {
    if a == [] {
      assert a + b == b;
      assert CodeStatements(a) == [];
    } else {
      assert (a + b)[1..] == a[1..] + b;
      CodeStatementsConcat(a[1..], b);
      CodeStatementsConcatStep(a, b);
    }
  }

  /** The inductive step of `CodeStatementsConcat`: the first statement of `a` leads
      both sides or neither. */
  lemma CodeStatementsConcatStep(a: seq<Stmt>, b: seq<Stmt>)
    requires a != []
    requires CodeStatements((a + b)[1..]) == CodeStatements(a[1..]) + CodeStatements(b)
    ensures CodeStatements(a + b) == CodeStatements(a) + CodeStatements(b)
  {
    var ab := a + b;
    assert ab[0] == a[0];
    CodeStatementsCons(ab);
    CodeStatementsCons(a);
    var first: seq<Stmt> := if IsDefinition(a[0]) then [] else [a[0]];
    PrependAssoc(CodeStatements(ab), CodeStatements(a), first, CodeStatements(a[1..]), CodeStatements(b));
  }

  /** One step of the filter: the first statement is kept unless it is a definition. */
  lemma CodeStatementsCons(body: seq<Stmt>)
    requires body != []
    ensures CodeStatements(body) == (if IsDefinition(body[0]) then [] else [body[0]]) + CodeStatements(body[1..])
  {
  }

  /** One clause per module-level code statement, in order. */
  function MainCodeParts(body: seq<Stmt>): (r: seq<string>)
    ensures |r| == |CodeStatements(body)|
    ensures forall k :: 0 <= k < |r| ==> r[k] == MainClause(CodeStatements(body)[k]) && r[k] != ""
  {
    Clauses(CodeStatements(body))
  }

  /** The clause of each statement, in order. */
  function Clauses(code: seq<Stmt>): (r: seq<string>)
    ensures |r| == |code|
    ensures forall k :: 0 <= k < |r| ==> r[k] == MainClause(code[k]) && r[k] != ""
  {
    seq(|code|, k requires 0 <= k < |code| => MainClause(code[k]))
  }

  predicate AssignsName(s: Stmt, v: string)
  {
    s.Assign? && NameTarget(v) in s.targets
  }

  /** One variable record per plain-name target, in order, each as often as it is
      assigned. */
  function NameTargets(targets: seq<Target>): (r: seq<VariableInfo>)
    ensures |r| <= |targets|
    ensures forall v :: VariableInfo(v) in r <==> NameTarget(v) in targets
    ensures forall v :: multiset(r)[VariableInfo(v)] == multiset(targets)[NameTarget(v)]
  {
    if targets == [] then []
    else
      assert targets == [targets[0]] + targets[1..];
      (if targets[0].NameTarget? then [VariableInfo(targets[0].id)] else []) + NameTargets(targets[1..])
  }

  /** Targets are recorded in the order written: those of a concatenation are those of
      each part, in turn. */
  lemma {:induction false} NameTargetsConcat(a: seq<Target>, b: seq<Target>)
    ensures NameTargets(a + b) == NameTargets(a) + NameTargets(b)
    decreases |a|
  {
    if a == [] {
      assert a + b == b;
    } else {
      var ab := a + b;
      assert ab[0] == a[0] && ab[1..] == a[1..] + b;
      NameTargetsConcat(a[1..], b);
      var first := if a[0].NameTarget? then [VariableInfo(a[0].id)] else [];
      assert NameTargets(ab) == first + (NameTargets(a[1..]) + NameTargets(b));
      PrependAssoc(NameTargets(ab), NameTargets(a), first, NameTargets(a[1..]), NameTargets(b));
    }
  }

  /** How many times the top-level assignments of a body assign the plain name `v`. */
  function AssignedCount(body: seq<Stmt>, v: string): nat
  {
    if body == [] then 0
    else (if body[0].Assign? then multiset(body[0].targets)[NameTarget(v)] else 0) + AssignedCount(body[1..], v)
  }

  /** The module-level variables: the plain-name targets of top-level assignments. */
  function ModuleVariables(body: seq<Stmt>): (r: seq<VariableInfo>)
    ensures forall v :: VariableInfo(v) in r <==> exists k :: 0 <= k < |body| && AssignsName(body[k], v)
    ensures forall v :: multiset(r)[VariableInfo(v)] == AssignedCount(body, v)
  {
    if body == [] then []
    else
      var rest := ModuleVariables(body[1..]);
      var here := if body[0].Assign? then NameTargets(body[0].targets) else [];
      AssignsNameCons(body);
      assert multiset(here + rest) == multiset(here) + multiset(rest);
      here + rest
  }

  /** Some statement of a non-empty body assigns `v` exactly when its first one does or
      one of the rest does. */
  lemma AssignsNameCons(body: seq<Stmt>)
    requires body != []
    ensures forall v :: (exists k :: 0 <= k < |body| && AssignsName(body[k], v)) <==>
      AssignsName(body[0], v) || exists k :: 0 <= k < |body[1..]| && AssignsName(body[1..][k], v)
  {
    forall v
      ensures (exists k :: 0 <= k < |body| && AssignsName(body[k], v)) ==>
        AssignsName(body[0], v) || exists k :: 0 <= k < |body[1..]| && AssignsName(body[1..][k], v)
    {
      if exists k :: 0 <= k < |body| && AssignsName(body[k], v) {
        var k :| 0 <= k < |body| && AssignsName(body[k], v);
        if k > 0 {
          assert body[1..][k - 1] == body[k];
        }
      }
    }
    forall v, k | 0 <= k < |body[1..]| && AssignsName(body[1..][k], v)
      ensures AssignsName(body[k + 1], v)
    {
    }
  }

  /** A single statement contributes the plain-name targets of an assignment and
      nothing otherwise. */
  lemma ModuleVariablesOne(s: Stmt)
    ensures ModuleVariables([s]) == if s.Assign? then NameTargets(s.targets) else []
  {
    assert [s][1..] == [];
  }

  /** Module variables keep statement order: those of a concatenation are those of each
      part, in turn. */
  lemma {:induction false} ModuleVariablesConcat(a: seq<Stmt>, b: seq<Stmt>)
    ensures ModuleVariables(a + b) == ModuleVariables(a) + ModuleVariables(b)
    decreases |a|
  {
    if a == [] {
      assert a + b == b;
    } else {
      var ab := a + b;
      assert ab[0] == a[0] && ab[1..] == a[1..] + b;
      ModuleVariablesConcat(a[1..], b);
      var first := if a[0].Assign? then NameTargets(a[0].targets) else [];
      assert ModuleVariables(ab) == first + (ModuleVariables(a[1..]) + ModuleVariables(b));
      PrependAssoc(ModuleVariables(ab), ModuleVariables(a), first, ModuleVariables(a[1..]), ModuleVariables(b));
    }
  }

  /** "The main code ..." with the clauses joined by " and " and lower-cased; no period
      is added. */
  function MainSentence(parts: seq<string>): string
  {
    "The main code " + Lower(Join(parts, " and "))
  }

  // ---------------------------------------------------------------------------
  // Fragments, tags and the envelope

  function DocFragment(m: Module): seq<string>
  {
    if Truthy(m.docstring) then ["This Python module includes documentation: " + Quoted(m.docstring.value)] else []
  }

  function ImportFragment(m: Module): seq<string>
  {
    var infos := ImportInfos(m.imports);
    if infos != [] then [ImportsSentence(infos)] else []
  }

  function FunctionInfos(m: Module): (r: seq<FunctionInfo>)
    ensures |r| == |m.functions|
    ensures forall k :: 0 <= k < |r| ==> r[k] == AnalyzeFunction(m.functions[k])
  {
    seq(|m.functions|, k requires 0 <= k < |m.functions| => AnalyzeFunction(m.functions[k]))
  }

  function ClassInfos(m: Module): (r: seq<ClassInfo>)
    ensures |r| == |m.classes|
    ensures forall k :: 0 <= k < |r| ==> r[k] == AnalyzeClass(m.classes[k])
  {
    seq(|m.classes|, k requires 0 <= k < |m.classes| => AnalyzeClass(m.classes[k]))
  }

  function FunctionDescriptions(m: Module): (r: seq<string>)
    ensures |r| == |m.functions|
    ensures forall k :: 0 <= k < |r| ==> r[k] == AnalyzeFunction(m.functions[k]).description
  {
    seq(|m.functions|, k requires 0 <= k < |m.functions| => AnalyzeFunction(m.functions[k]).description)
  }

  function ClassDescriptions(m: Module): (r: seq<string>)
    ensures |r| == |m.classes|
    ensures forall k :: 0 <= k < |r| ==> r[k] == AnalyzeClass(m.classes[k]).description
  {
    seq(|m.classes|, k requires 0 <= k < |m.classes| => AnalyzeClass(m.classes[k]).description)
  }

  function MainFragment(m: Module): seq<string>
  {
    var parts := MainCodeParts(m.body);
    if parts != [] then [MainSentence(parts)] else []
  }

  /** The explanation fragments: docstring sentence, imports sentence, function
      descriptions, class descriptions, main-code sentence. */
  function Fragments(m: Module): seq<string>
  {
    DocFragment(m) + ImportFragment(m) + FunctionDescriptions(m) + ClassDescriptions(m) + MainFragment(m)
  }

  /** Where each kind of fragment sits in the explanation. */
  lemma FragmentOrder(m: Module)
    ensures var r := Fragments(m);
      var off := |DocFragment(m)| + |ImportFragment(m)|;
      && |r| == off + |m.functions| + |m.classes| + |MainFragment(m)|
      && (Truthy(m.docstring) ==> r[0] == "This Python module includes documentation: " + Quoted(m.docstring.value))
      && (ImportInfos(m.imports) != [] ==> r[|DocFragment(m)|] == ImportsSentence(ImportInfos(m.imports)))
      && (forall k :: 0 <= k < |m.functions| ==> r[off + k] == AnalyzeFunction(m.functions[k]).description)
      && (forall k :: 0 <= k < |m.classes| ==> r[off + |m.functions| + k] == AnalyzeClass(m.classes[k]).description)
      && (MainCodeParts(m.body) != [] ==> r[|r| - 1] == MainSentence(MainCodeParts(m.body)))
  {
    LeadingFragments(m);
    FunctionFragments(m);
    ClassFragments(m);
    MainFragmentLast(m);
  }

  lemma LeadingFragments(m: Module)
    ensures var r := Fragments(m);
      && |r| == |DocFragment(m)| + |ImportFragment(m)| + |m.functions| + |m.classes| + |MainFragment(m)|
      && (Truthy(m.docstring) ==> r[0] == "This Python module includes documentation: " + Quoted(m.docstring.value))
      && (ImportInfos(m.imports) != [] ==> r[|DocFragment(m)|] == ImportsSentence(ImportInfos(m.imports)))
  {
    Layout(DocFragment(m), ImportFragment(m), FunctionDescriptions(m), ClassDescriptions(m), MainFragment(m));
  }

  lemma FunctionFragments(m: Module)
    ensures var off := |DocFragment(m)| + |ImportFragment(m)|;
      forall k :: 0 <= k < |m.functions| ==> Fragments(m)[off + k] == AnalyzeFunction(m.functions[k]).description
  {
    forall k | 0 <= k < |m.functions|
      ensures Fragments(m)[|DocFragment(m)| + |ImportFragment(m)| + k] == AnalyzeFunction(m.functions[k]).description
    {
      FunctionFragmentAt(m, k);
    }
  }

  lemma FunctionFragmentAt(m: Module, k: nat)
    requires k < |FunctionDescriptions(m)|
    ensures Fragments(m)[|DocFragment(m)| + |ImportFragment(m)| + k] == FunctionDescriptions(m)[k]
  {
    var a, f, c, e := DocFragment(m) + ImportFragment(m), FunctionDescriptions(m), ClassDescriptions(m), MainFragment(m);
    assert |a| == |DocFragment(m)| + |ImportFragment(m)|;
    LayoutAtSecond(a, f, c, e, k);
    assert Fragments(m) == a + f + c + e;
  }

  lemma ClassFragments(m: Module)
    ensures var off := |DocFragment(m)| + |ImportFragment(m)| + |m.functions|;
      forall k :: 0 <= k < |m.classes| ==> Fragments(m)[off + k] == AnalyzeClass(m.classes[k]).description
  {
    forall k | 0 <= k < |m.classes|
      ensures Fragments(m)[|DocFragment(m)| + |ImportFragment(m)| + |m.functions| + k] == AnalyzeClass(m.classes[k]).description
    {
      ClassFragmentAt(m, k);
    }
  }

  lemma ClassFragmentAt(m: Module, k: nat)
    requires k < |m.classes|
    ensures Fragments(m)[|DocFragment(m)| + |ImportFragment(m)| + |m.functions| + k] == AnalyzeClass(m.classes[k]).description
  {
    var head := DocFragment(m) + ImportFragment(m) + FunctionDescriptions(m);
    var c := ClassDescriptions(m);
    LayoutAt(head, c, MainFragment(m), k);
  }

  /** Position `j` of `a + e` is position `j` of `a`. */
  lemma PrefixAt(a: seq<string>, e: seq<string>, j: nat)
    requires j < |a|
    ensures (a + e)[j] == a[j]
  {
  }

  /** Position `|a| + k` of `a + c + e` is position `k` of `c`. */
  lemma LayoutAt(a: seq<string>, c: seq<string>, e: seq<string>, k: nat)
    requires k < |c|
    ensures (a + c + e)[|a| + k] == c[k]
  {
  }

  /** Position `k` of the second part of a four-part layout. */
  lemma LayoutAtSecond(a: seq<string>, c: seq<string>, d: seq<string>, e: seq<string>, k: nat)
    requires k < |c|
    ensures (a + c + d + e)[|a| + k] == c[k]
  {
  }

  lemma MainFragmentLast(m: Module)
    ensures MainCodeParts(m.body) != [] ==> Fragments(m)[|Fragments(m)| - 1] == MainSentence(MainCodeParts(m.body))
  {
    Layout(DocFragment(m), ImportFragment(m), FunctionDescriptions(m), ClassDescriptions(m), MainFragment(m));
  }

  /** Positions in a concatenation of five runs of fragments. */
  lemma Layout(a: seq<string>, b: seq<string>, c: seq<string>, d: seq<string>, e: seq<string>)
    ensures var r := a + b + c + d + e;
      && |r| == |a| + |b| + |c| + |d| + |e|
      && (|a| == 1 ==> r[0] == a[0])
      && (|b| == 1 ==> r[|a|] == b[0])
      && (forall k :: 0 <= k < |c| ==> r[|a| + |b| + k] == c[k])
      && (forall k :: 0 <= k < |d| ==> r[|a| + |b| + |c| + k] == d[k])
      && (|e| == 1 ==> r[|r| - 1] == e[0])
  {
  }

  const PythonTagTable := ["defines reusable functions", "creates object-oriented classes",
                           "stores data in variables", "uses external libraries", "executes main program logic"]

  /** Which kinds of construct were found, in the order of the tag table. */
  function TagFlags(m: Module): (r: seq<bool>)
    ensures |r| == |PythonTagTable|
  {
    [m.functions != [], m.classes != [], ModuleVariables(m.body) != [],
     ImportInfos(m.imports) != [], MainCodeParts(m.body) != []]
  }

  /** The feature tags, one per kind of construct found, in table order. */
  function Tags(m: Module): seq<string>
  {
    Selected(PythonTagTable, TagFlags(m))
  }

  /** Each tag is present exactly when its kind of construct was found, and none twice. */
  lemma PythonTags(m: Module)
    ensures "defines reusable functions" in Tags(m) <==> m.functions != []
    ensures "creates object-oriented classes" in Tags(m) <==> m.classes != []
    ensures "stores data in variables" in Tags(m) <==> exists k, v :: 0 <= k < |m.body| && AssignsName(m.body[k], v)
    ensures "uses external libraries" in Tags(m) <==> ImportInfos(m.imports) != []
    ensures "executes main program logic" in Tags(m) <==> exists k :: 0 <= k < |m.body| && !IsDefinition(m.body[k])
    ensures Distinct(Tags(m))
  {
    TagsFollowFlags(m);
    var t, f := PythonTagTable, TagFlags(m);
    assert t[0] in Tags(m) <==> f[0];
    assert t[1] in Tags(m) <==> f[1];
    assert t[2] in Tags(m) <==> f[2];
    assert t[3] in Tags(m) <==> f[3];
    assert t[4] in Tags(m) <==> f[4];
    VariablesFound(m.body);
    MainCodeFound(m.body);
  }

  /** The table's tags are distinct, so each is present exactly when its flag is set. */
  lemma TagsFollowFlags(m: Module)
    ensures forall k :: 0 <= k < |PythonTagTable| ==> (PythonTagTable[k] in Tags(m) <==> TagFlags(m)[k])
    ensures Distinct(Tags(m))
  {
    TagTableDistinct();
    SelectedExactlyFired(PythonTagTable, TagFlags(m));
  }

  /** No tag appears twice in the table: their lengths already differ. */
  lemma TagTableDistinct()
    ensures Distinct(PythonTagTable)
  {
    var t := PythonTagTable;
    assert |t[0]| == 26 && |t[1]| == 31 && |t[2]| == 24 && |t[3]| == 23 && |t[4]| == 27;
  }

  lemma VariablesFound(body: seq<Stmt>)
    ensures ModuleVariables(body) != [] <==> exists k, v :: 0 <= k < |body| && AssignsName(body[k], v)
  {
    if ModuleVariables(body) != [] {
      var v := ModuleVariables(body)[0].name;
      assert VariableInfo(v) in ModuleVariables(body);
    }
    if exists k, v :: 0 <= k < |body| && AssignsName(body[k], v) {
      var k, v :| 0 <= k < |body| && AssignsName(body[k], v);
      assert VariableInfo(v) in ModuleVariables(body);
    }
  }

  /** `ast.get_docstring` finds a module docstring only in a leading string-expression
      statement, and that statement stays in the module body as an `Other`. */
  predicate WellFormed(m: Module)
  {
    m.docstring.Some? ==> m.body != [] && m.body[0] == Other
  }

  /** A module docstring is also module-level code: it gives the first main-code clause,
      "Contains executable code.", so the main-code sentence closes the explanation and
      the "executes main program logic" tag is present. */
  lemma DocstringAddsMainCode(m: Module)
    requires WellFormed(m) && m.docstring.Some?
    ensures MainCodeParts(m.body) != [] && MainCodeParts(m.body)[0] == "Contains executable code."
    ensures Fragments(m)[|Fragments(m)| - 1] == MainSentence(MainCodeParts(m.body))
    ensures "executes main program logic" in Tags(m)
  {
    LeadingOtherClause(m.body);
    MainFragmentLast(m);
    assert !IsDefinition(m.body[0]);
    PythonTags(m);
  }

  /** A body led by an `Other` statement has "Contains executable code." as its first clause. */
  lemma LeadingOtherClause(body: seq<Stmt>)
    requires body != [] && body[0] == Other
    ensures MainCodeParts(body) != [] && MainCodeParts(body)[0] == "Contains executable code."
  {
    LeadingOtherCode(body);
    var parts := MainCodeParts(body);
    assert parts[0] == MainClause(Other);
    assert MainClause(Other) == "Contains executable code.";
  }

  /** A body led by an `Other` statement has it as its first code statement. */
  lemma LeadingOtherCode(body: seq<Stmt>)
    requires body != [] && body[0] == Other
    ensures CodeStatements(body) != [] && CodeStatements(body)[0] == Other
  {
    CodeStatementsCons(body);
  }

  lemma MainCodeFound(body: seq<Stmt>)
    ensures MainCodeParts(body) != [] <==> exists k :: 0 <= k < |body| && !IsDefinition(body[k])
  {
    var code := CodeStatements(body);
    if code != [] {
      assert code[0] in body;
      assert code[0] in code;
    }
    if exists k :: 0 <= k < |body| && !IsDefinition(body[k]) {
      var k :| 0 <= k < |body| && !IsDefinition(body[k]);
      assert body[k] in code;
    }
  }

  function LineText(line: Option<nat>): string
  {
    match line
    case None => "None"
    case Some(n) => NatToString(n)
  }

  /** The error records of `analyze_python`: a syntax error names the line, any other
      failure gives the generic analysis error. */
  function PythonError(outcome: Outcome): (r: PythonEnvelope)
    requires !outcome.Parsed?
    ensures IsErrorEnvelope(r) && r.userFriendly.None? && r.language == "python"
    ensures r.metadata == RuleErrorMetadata
    ensures outcome.SyntaxFailure? ==>
      && StartsWith(r.summary, "Python syntax error: ")
      && r.full == "Python syntax error at line " + LineText(outcome.line) + ": " + outcome.message
    ensures outcome.Failed? ==> StartsWith(r.summary, "Analysis error: ")
  {
    match outcome
    case SyntaxFailure(msg, line) =>
      StartsWithLeft("Python syntax error: ", msg);
      RuleError("Python syntax error: " + msg, None, "The code contains syntax errors and cannot be parsed.",
                "Python syntax error at line " + LineText(line) + ": " + msg, "python")
    case Failed(msg) =>
      StartsWithLeft("Analysis error: ", msg);
      RuleError("Analysis error: " + msg, None, "An error occurred while analyzing the Python code.",
                "Error during analysis: " + msg, "python")
  }

  /** The success record of `analyze_python` for a parsed module. */
  function PythonReport(m: Module): (r: PythonEnvelope)
    ensures r.language == "python" && r.metadata == RuleMetadata
    ensures r.full == Join(Fragments(m), " ")
    ensures Split(r.summary, r.details) == SentenceSplit(r.full, 2)
    ensures r.userFriendly == Some(FeatureSummary("this Python code", "performs basic programming operations.", Tags(m)))
    ensures r.functions == FunctionInfos(m) && r.classes == ClassInfos(m)
    ensures r.imports == ImportInfos(m.imports) && r.variables == ModuleVariables(m.body)
  {
    var full := Join(Fragments(m), " ");
    var split := SentenceSplit(full, 2);
    var friendly := FeatureSummary("this Python code", "performs basic programming operations.", Tags(m));
    Envelope(split.summary, Some(friendly), split.details, full,
             FunctionInfos(m), ClassInfos(m), ModuleVariables(m.body), ImportInfos(m.imports),
             "python", RuleMetadata)
  }

  /** `analyze_python`: the result record for one analysis run. */
  function AnalyzePython(outcome: Outcome): (r: PythonEnvelope)
    ensures r.language == "python"
    ensures r.metadata.modelUsed == "rule-based" && r.metadata.analysisType == "rule"
    ensures r.metadata.error <==> !outcome.Parsed?
    ensures !outcome.Parsed? ==> IsErrorEnvelope(r) && r.userFriendly.None?
    ensures outcome.Parsed? ==>
      && r.full == Join(Fragments(outcome.tree), " ")
      && Split(r.summary, r.details) == SentenceSplit(r.full, 2)
      && r.userFriendly == Some(FeatureSummary("this Python code", "performs basic programming operations.", Tags(outcome.tree)))
  {
    if outcome.Parsed? then PythonReport(outcome.tree) else PythonError(outcome)
  }
}
