/** The JavaScript analyzer: sentences about the functions, classes and variables found,
    seven fixed rules, the first sentence as the summary and the Oxford-comma
    user-friendly summary. */
module JsAnalyzer {
  import opened Core
  import opened Text
  import opened Assembly
  import opened Envelopes
  import opened Rules

  /** What the patterns found. The four function patterns (regular, arrow, object method,
      async) and the three declaration patterns (`let`, `const`, `var`) each give their
      names in order of appearance; the seven fixed patterns give one flag each. */
  datatype Scan = Scan(
    regular: seq<string>, arrow: seq<string>, objectMethods: seq<string>, asyncFunctions: seq<string>,
    classes: seq<string>,
    lets: seq<string>, consts: seq<string>, vars: seq<string>,
    output: bool, events: bool, dom: bool, network: bool,
    conditional: bool, loops: bool, asynchronous: bool)

  /** The functions, pattern by pattern. */
  function FunctionNames(s: Scan): seq<string>
  {
    s.regular + s.arrow + s.objectMethods + s.asyncFunctions
  }

  /** The variables: the declared names, pattern by pattern, that are not function names.
      Such a name is recorded as often as it is declared. */
  function VariableNames(s: Scan): (r: seq<string>)
    ensures forall n :: n in r <==> n in s.lets + s.consts + s.vars && n !in FunctionNames(s)
    ensures forall n :: n !in FunctionNames(s) ==>
      multiset(r)[n] == multiset(s.lets)[n] + multiset(s.consts)[n] + multiset(s.vars)[n]
  {
    ExcludingCounts(s.lets + s.consts + s.vars, FunctionNames(s));
    Excluding(s.lets + s.consts + s.vars, FunctionNames(s))
  }

  /** The variables come in pattern order (`let`, `const`, `var`), each pattern's names in
      order of appearance. */
  lemma VariablesInOrder(s: Scan)
    ensures var f := FunctionNames(s);
      VariableNames(s) == Excluding(s.lets, f) + Excluding(s.consts, f) + Excluding(s.vars, f)
  {
    var f := FunctionNames(s);
    ExcludingConcat(s.lets + s.consts, s.vars, f);
    ExcludingConcat(s.lets, s.consts, f);
  }

  // ---------------------------------------------------------------------------
  // The function sentence

  const Calculates := " that performs mathematical calculations."
  const Retrieves := " that retrieves or gets data."
  const Updates := " that updates or modifies data."
  const Displays := " that displays information."
  const Operates := " that performs specific operations."

  /** What a lone function is said to do, from keywords in its lower-cased name; the
      first group of keywords that occurs decides. */
  function Purpose(name: string): (r: string)
    ensures r == Calculates || r == Retrieves || r == Updates || r == Displays || r == Operates
    ensures var l := Lower(name);
      r == Operates <==>
        && !Contains(l, "calculate") && !Contains(l, "get") && !Contains(l, "fetch")
        && !Contains(l, "set") && !Contains(l, "update") && !Contains(l, "show") && !Contains(l, "display")
  {
    PhraseLengths();
    var l := Lower(name);
    if Contains(l, "calculate") then Calculates
    else if Contains(l, "get") || Contains(l, "fetch") then Retrieves
    else if Contains(l, "set") || Contains(l, "update") then Updates
    else if Contains(l, "show") || Contains(l, "display") then Displays
    else Operates
  }

  /** The five phrases differ in length. */
  lemma PhraseLengths()
    ensures |Calculates| == 41 && |Retrieves| == 29 && |Updates| == 31 && |Displays| == 27 && |Operates| == 35
  {
  }

  /** The phrase tells which keyword group decided: each group is chosen exactly when one
      of its keywords occurs and none of an earlier group does. */
  lemma PurposeIdentifiesGroup(name: string)
    ensures var l := Lower(name);
      && (Purpose(name) == Calculates <==> Contains(l, "calculate"))
      && (Purpose(name) == Retrieves <==>
            !Contains(l, "calculate") && (Contains(l, "get") || Contains(l, "fetch")))
      && (Purpose(name) == Updates <==>
            !Contains(l, "calculate") && !Contains(l, "get") && !Contains(l, "fetch")
            && (Contains(l, "set") || Contains(l, "update")))
      && (Purpose(name) == Displays <==>
            !Contains(l, "calculate") && !Contains(l, "get") && !Contains(l, "fetch")
            && !Contains(l, "set") && !Contains(l, "update")
            && (Contains(l, "show") || Contains(l, "display")))
  {
    PhraseLengths();
  }

  /** Only the letters matter, not their case. */
  lemma PurposeIgnoresCase(name: string)
    ensures Purpose(Lower(name)) == Purpose(name)
  {
    LowerIsLower(name);
  }

  /** Python's `names[:3]`. */
  function Shown(names: seq<string>): (r: seq<string>)
    ensures |names| <= 3 ==> r == names
    ensures |names| > 3 ==> |r| == 3
    ensures r <= names
  {
    if |names| <= 3 then names else names[..3]
  }

  const TogetherTail := " that work together to accomplish tasks."

  /** The words after the names of several functions: "..." when some are left unnamed. */
  function FunctionsTail(count: nat): (r: string)
    ensures EndsWith(r, TogetherTail)
  {
    var marker := if count > 3 then "..." else "";
    Framed(marker, [], TogetherTail);
    marker + [] + TogetherTail
  }

  /** The function sentence: the lone function by name with its purpose, or how many
      there are and the first three names, with "..." when some are left unnamed. */
  function FunctionsFragment(names: seq<string>): (r: string)
    ensures |names| == 1 ==>
      StartsWith(r, "This defines a function called " + Quoted(names[0])) && EndsWith(r, Purpose(names[0]))
    ensures |names| != 1 ==> StartsWith(r, Counted(|names|, "functions")) && EndsWith(r, TogetherTail)
  {
    if |names| == 1 then
      var head := "This defines a function called " + Quoted(names[0]);
      Framed(head, [], Purpose(names[0]));
      head + [] + Purpose(names[0])
    else
      var head := Counted(|names|, "functions");
      var tail := FunctionsTail(|names|);
      Framed(head, Join(Shown(names), ", "), tail);
      EndsWithPrepend(tail, TogetherTail, head + Join(Shown(names), ", "));
      head + Join(Shown(names), ", ") + tail
  }

  /** A lone function's sentence quotes its name and ends with its purpose. */
  lemma LoneFunctionSentence(name: string)
    ensures Contains(FunctionsFragment([name]), Quoted(name))
    ensures EndsWith(FunctionsFragment([name]), Purpose(name))
  {
    var head := "This defines a function called ";
    ContainsSelf(Quoted(name));
    ContainsRight(head, Quoted(name), Quoted(name));
    ContainsLeft(head + Quoted(name), Purpose(name), Quoted(name));
    assert FunctionsFragment([name]) == head + Quoted(name) + Purpose(name);
  }

  /** With several functions (identifiers, so without "." or ", ") the sentence names the
      first three, in order, between the count and the closing words, and it marks the
      others with "..." exactly when there are more than three. */
  lemma SeveralFunctionsSentence(names: seq<string>)
    requires |names| >= 2
    requires forall k :: 0 <= k < |names| ==> !Contains(names[k], ", ") && '.' !in names[k]
    ensures var r := FunctionsFragment(names);
      var head := Counted(|names|, "functions");
      var tail := FunctionsTail(|names|);
      && EndsWith(r, tail)
      && SplitOn(r[|head|..|r| - |tail|], ", ") == Shown(names)
      && (EndsWith(r, "..." + TogetherTail) <==> |names| > 3)
  {
    var head := Counted(|names|, "functions");
    var shown := Shown(names);
    assert forall k :: 0 <= k < |shown| ==> shown[k] == names[k];
    ListBetween(head, shown, FunctionsTail(|names|));
    if |names| <= 3 {
      JoinLacksChar(shown, ", ", '.');
      assert Join(shown, ", ") == shown[0] + ", " + Join(shown[1..], ", ");
      NoEllipsis(head, Join(shown, ", "));
    }
  }

  /** A list without '.' followed directly by the closing words leaves no "...". */
  lemma NoEllipsis(head: string, list: string)
    requires list != [] && '.' !in list
    ensures !EndsWith(head + list + FunctionsTail(0), "..." + TogetherTail)
  {
    var r := head + list + FunctionsTail(0);
    assert r[|r| - |TogetherTail| - 1] == list[|list| - 1];
    assert list[|list| - 1] in list;
  }

  // ---------------------------------------------------------------------------
  // The class and variable sentences

  const Blueprint := " that serves as a blueprint for creating objects."
  const ObjectKinds := " that create different types of objects."
  const StoresData := " to store data."
  const StoresPieces := " variables to store different pieces of data."

  /** The class sentence: the one class by name, or how many there are and their names. */
  function ClassesFragment(names: seq<string>): (r: string)
    ensures |names| == 1 ==>
      StartsWith(r, "This defines a class called " + Quoted(names[0])) && EndsWith(r, Blueprint)
    ensures |names| != 1 ==> StartsWith(r, Counted(|names|, "classes")) && EndsWith(r, ObjectKinds)
  {
    var head := if |names| == 1 then "This defines a class called " + Quoted(names[0])
                else Counted(|names|, "classes");
    var middle := if |names| == 1 then [] else Join(names, ", ");
    var tail := if |names| == 1 then Blueprint else ObjectKinds;
    Framed(head, middle, tail);
    head + middle + tail
  }

  /** With several classes the sentence gives their count and every name, in order, with
      no cap: the names split back out of it. */
  lemma SeveralClassesSentence(names: seq<string>)
    requires |names| >= 2
    requires forall k :: 0 <= k < |names| ==> !Contains(names[k], ", ")
    ensures var r := ClassesFragment(names);
      SplitOn(r[|Counted(|names|, "classes")|..|r| - |ObjectKinds|], ", ") == names
  {
    ListBetween(Counted(|names|, "classes"), names, ObjectKinds);
  }

  /** The variable sentence: the one variable by name, or only how many there are. */
  function VariablesFragment(names: seq<string>): (r: string)
    ensures |names| == 1 ==>
      StartsWith(r, "This creates a variable called " + Quoted(names[0])) && EndsWith(r, StoresData)
    ensures |names| != 1 ==> r == "This creates " + NatToString(|names|) + StoresPieces
    ensures |names| != 1 ==> DigitsValue(r[|"This creates "|..|r| - |StoresPieces|]) == |names|
  {
    if |names| == 1 then
      var head := "This creates a variable called " + Quoted(names[0]);
      Framed(head, [], StoresData);
      head + [] + StoresData
    else
      var r := "This creates " + NatToString(|names|) + StoresPieces;
      assert r[|"This creates "|..|r| - |StoresPieces|] == NatToString(|names|);
      NatToStringRoundTrip(|names|);
      r
  }

  // ---------------------------------------------------------------------------
  // The rule table

  /** The sentences of the seven fixed rules, which follow the function, class and
      variable sentences. */
  const JsFragments := [
    "This displays output or information to the user.",
    "This handles user interactions and events.",
    "This manipulates HTML elements on the page.",
    "This makes network requests to external services.",
    "This contains conditional logic for decision making.",
    "This uses loops to repeat operations.",
    "This handles asynchronous operations."]

  /** The feature tag of each of the ten sentences, in table order. */
  const JsTags := [
    Some("defines reusable functions"),
    Some("creates object-oriented classes"),
    Some("stores data in variables"),
    Some("displays output or information to the user"),
    Some("responds to user interactions"),
    Some("modifies web page content"),
    Some("communicates with external services"),
    Some("makes decisions based on conditions"),
    Some("repeats operations multiple times"),
    Some("performs operations that take time to complete")]

  /** All ten sentences in the order the analyzer considers them, each with its tag. */
  function JsTable(s: Scan): (r: seq<Rule>)
    ensures |r| == 10
    ensures RuleFragments(r)
      == [FunctionsFragment(FunctionNames(s)), ClassesFragment(s.classes), VariablesFragment(VariableNames(s))]
         + JsFragments
    ensures RuleTags(r) == JsTags
    ensures forall k :: 0 <= k < |r| ==> r[k].tag.Some?
  {
    JsTagsPresent();
    Table([FunctionsFragment(FunctionNames(s)), ClassesFragment(s.classes), VariablesFragment(VariableNames(s))]
          + JsFragments, JsTags)
  }

  lemma JsTagsPresent()
    ensures forall k :: 0 <= k < |JsTags| ==> JsTags[k].Some?
  {
  }

  function Fired(s: Scan): (r: seq<bool>)
    ensures |r| == 10
  {
    [FunctionNames(s) != [], s.classes != [], VariableNames(s) != [],
     s.output, s.events, s.dom, s.network, s.conditional, s.loops, s.asynchronous]
  }

  /** The sentences produced, in table order. */
  function Parts(s: Scan): (r: seq<string>)
    ensures |r| <= 10
  {
    FiredFragments(JsTable(s), Fired(s))
  }

  const JsFallback := "This JavaScript code contains " + "basic programming structures."
  const JsFallbackSummary := "This is a JavaScript code file."
  const JsSubject := "this JavaScript code"
  const GenericFeature := "performs basic programming operations."

  // ---------------------------------------------------------------------------
  // The record

  /** The success record: the sentences joined by " " (or the fallback), the first
      sentence as the summary and the others as the details. */
  function JsReport(s: Scan): (r: Envelope<Entry, Entry, Entry, Entry>)
    ensures r.language == "javascript" && r.metadata == RuleMetadata
    ensures r.full == (if Parts(s) != [] then Join(Parts(s), " ") else JsFallback)
    ensures Split(r.summary, r.details) == LeadSplit(Parts(s), JsFallbackSummary)
    ensures r.userFriendly == Some(FeatureSummary(JsSubject, GenericFeature, FiredTags(JsTable(s), Fired(s))))
    ensures Names(r.functions) == FunctionNames(s) && Names(r.classes) == s.classes
    ensures Names(r.variables) == VariableNames(s) && r.imports == []
  {
    var parts := Parts(s);
    var full := if parts != [] then Join(parts, " ") else JsFallback;
    var split := LeadSplit(parts, JsFallbackSummary);
    var friendly := FeatureSummary(JsSubject, GenericFeature, FiredTags(JsTable(s), Fired(s)));
    Envelope(split.summary, Some(friendly), split.details, full,
             Described(FunctionNames(s), "function", "Function "),
             Described(s.classes, "class", "Class "),
             Noted(VariableNames(s), "variable", "unknown"), [], "javascript", RuleMetadata)
  }

  /** `analyze_javascript`. Unlike the other pattern analyzers, its error record carries a
      user-friendly summary. */
  function AnalyzeJavaScript(outcome: Detection<Scan>): (r: Envelope<Entry, Entry, Entry, Entry>)
    ensures r.language == "javascript"
    ensures r.metadata.error <==> outcome.Crashed?
    ensures outcome.Detected? ==> r == JsReport(outcome.scan)
    ensures outcome.Crashed? ==>
      && IsErrorEnvelope(r)
      && r.userFriendly == Some("There was an error analyzing this JavaScript code.")
      && r.summary == "JavaScript analysis error: " + outcome.message
      && r.full == "Error during analysis: " + outcome.message
  {
    match outcome
    case Detected(s) => JsReport(s)
    case Crashed(msg) =>
      AnalysisError("JavaScript analysis error: " + msg, Some("There was an error analyzing this JavaScript code."),
                    "An error occurred while analyzing the JavaScript code.", msg, "javascript")
  }

  // ---------------------------------------------------------------------------
  // Properties

  /** Every sentence comes with exactly one feature tag, in the same order, and each tag is
      present exactly when its sentence was produced. */
  lemma JsTagsFollowSentences(s: Scan)
    ensures |FiredTags(JsTable(s), Fired(s))| == |Parts(s)|
    ensures forall n :: 0 <= n < |FiredIndices(Fired(s))| ==>
      FiredTags(JsTable(s), Fired(s))[n] == JsTable(s)[FiredIndices(Fired(s))[n]].tag.value
    ensures forall k :: 0 <= k < 10 ==>
      (JsTable(s)[k].tag.value in FiredTags(JsTable(s), Fired(s)) <==> Fired(s)[k])
  {
    FiredTagsInOrder(JsTable(s), Fired(s));
    JsTagsDistinct(s);
    forall k | 0 <= k < 10
      ensures JsTable(s)[k].tag.value in FiredTags(JsTable(s), Fired(s)) <==> Fired(s)[k]
    {
      TagIffFired(JsTable(s), Fired(s), k);
    }
  }

  lemma JsTagsDistinct(s: Scan)
    ensures DistinctTags(JsTable(s))
  {
    JsTagTextsDistinct();
  }

  /** The tags differ in length, or else in their first letter. */
  lemma JsTagTextsDistinct()
    ensures DistinctSome(JsTags)
  {
    var t := JsTags;
    assert |t[0].value| == 26 && |t[1].value| == 31 && |t[2].value| == 24 && |t[3].value| == 42;
    assert |t[4].value| == 29 && |t[5].value| == 25 && |t[6].value| == 35 && |t[7].value| == 35;
    assert |t[8].value| == 33 && |t[9].value| == 46;
    assert t[6].value[0] != t[7].value[0];
  }

  /** No function name is counted as a variable, and every other declared name is. */
  lemma VariablesExcludeFunctions(s: Scan, n: string)
    requires n in s.lets || n in s.consts || n in s.vars
    ensures n in VariableNames(s) <==> n !in FunctionNames(s)
  {
  }

  /** With nothing found the explanation is the fallback sentence, the summary is the
      fixed file sentence, and the user-friendly summary is the generic one. */
  lemma JsNothingFound(s: Scan)
    requires forall k :: 0 <= k < 10 ==> !Fired(s)[k]
    ensures JsReport(s).full == JsFallback && JsReport(s).summary == JsFallbackSummary
    ensures JsReport(s).details == ""
    ensures JsReport(s).userFriendly == Some("In simple terms, " + JsSubject + " " + GenericFeature)
  {
    NothingFired(s);
  }

  lemma NothingFired(s: Scan)
    requires forall k :: 0 <= k < 10 ==> !Fired(s)[k]
    ensures Parts(s) == [] && FiredTags(JsTable(s), Fired(s)) == []
  {
    NoTagsWhenUntagged(JsTable(s), Fired(s));
  }
}
