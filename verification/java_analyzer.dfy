/** The Java analyzer: class and method sentences built from the names found, five fixed
    rules, the one-sentence summary and the Oxford-comma user-friendly summary. */
module JavaAnalyzer {
  import opened Core
  import opened Text
  import opened Assembly
  import opened Envelopes
  import opened Rules

  /** What the patterns found: class names and method-like names in order of appearance,
      and whether each of the five fixed patterns occurs. */
  datatype Scan = Scan(
    classes: seq<string>, methodMatches: seq<string>,
    main: bool, output: bool, imports: bool, conditional: bool, loops: bool)

  /** Names the method pattern also matches that are not methods. */
  const ExcludedMethods := ["main", "if", "for", "while"]

  /** The methods: the matched names other than the excluded ones, in order. A kept name
      is kept as often as it was matched, so repeats count in the methods sentence. */
  function KeptMethods(matches: seq<string>): (r: seq<string>)
    ensures forall n :: n in r <==> n in matches && n !in ExcludedMethods
    ensures forall n :: n !in ExcludedMethods ==> multiset(r)[n] == multiset(matches)[n]
  {
    ExcludingCounts(matches, ExcludedMethods);
    Excluding(matches, ExcludedMethods)
  }

  /** The methods are kept match by match, in order: a single match is kept exactly when
      it is not excluded, and the matches of two stretches of code keep their order. */
  lemma KeptMethodsInOrder(a: seq<string>, b: seq<string>)
    ensures |a| == 1 ==> KeptMethods(a) == if a[0] in ExcludedMethods then [] else a
    ensures KeptMethods(a + b) == KeptMethods(a) + KeptMethods(b)
  {
    ExcludingConcat(a, b, ExcludedMethods);
    if |a| == 1 {
      assert a == [a[0]];
      ExcludingOne(a[0], ExcludedMethods);
    }
  }

  const ClassBlueprint := " that serves as a blueprint for creating objects"
  const ClassesKinds := " that create different types of objects"
  const MethodsWork := " method(s) that perform specific operations"

  /** The class sentence: the one class by name, or how many there are and their names. */
  function ClassFragment(classes: seq<string>): (r: string)
    ensures |classes| == 1 ==>
      StartsWith(r, "This defines a Java class called " + Quoted(classes[0])) && EndsWith(r, ClassBlueprint + ".")
    ensures |classes| != 1 ==> StartsWith(r, Counted(|classes|, "Java classes")) && EndsWith(r, ClassesKinds + ".")
  {
    var head := if |classes| == 1 then "This defines a Java class called " + Quoted(classes[0])
                else Counted(|classes|, "Java classes");
    var middle := if |classes| == 1 then [] else Join(classes, ", ");
    var tail := if |classes| == 1 then ClassBlueprint + "." else ClassesKinds + ".";
    Framed(head, middle, tail);
    head + middle + tail
  }

  /** With several classes the sentence gives their count and every name, in order, with
      no cap: the names split back out of it. */
  lemma SeveralJavaClasses(classes: seq<string>)
    requires |classes| >= 2
    requires forall k :: 0 <= k < |classes| ==> !Contains(classes[k], ", ")
    ensures var r := ClassFragment(classes);
      SplitOn(r[|Counted(|classes|, "Java classes")|..|r| - |ClassesKinds + "."|], ", ") == classes
  {
    ListBetween(Counted(|classes|, "Java classes"), classes, ClassesKinds + ".");
  }

  /** The method sentence, which gives only the count. */
  function MethodFragment(count: nat): (r: string)
    ensures StartsWith(r, "This defines ") && EndsWith(r, MethodsWork + ".")
    ensures |r| == 13 + |NatToString(count)| + |MethodsWork + "."|
    ensures r[13..13 + |NatToString(count)|] == NatToString(count)
    ensures DigitsValue(r[13..13 + |NatToString(count)|]) == count
  {
    var head := "This defines ";
    Framed(head, NatToString(count), MethodsWork + ".");
    assert (head + NatToString(count) + (MethodsWork + "."))[13..13 + |NatToString(count)|] == NatToString(count);
    NatToStringRoundTrip(count);
    head + NatToString(count) + (MethodsWork + ".")
  }

  /** The sentences of the five fixed rules, which follow the class and method sentences. */
  const JavaFragments := [
    "This contains a main method that serves as the program's entry point.",
    "This displays output to the console.",
    "This imports external Java libraries or classes.",
    "This contains conditional logic for decision making.",
    "This uses loops to repeat operations."]

  /** The feature tag of each of the seven sentences, in table order. */
  const JavaTags := [
    Some("creates object-oriented classes"),
    Some("defines reusable methods"),
    Some("serves as a program starting point"),
    Some("displays output to users"),
    Some("uses external Java libraries"),
    Some("makes decisions based on conditions"),
    Some("repeats operations multiple times")]

  /** All seven sentences in the order the analyzer considers them, each with its tag. */
  function JavaTable(s: Scan): (r: seq<Rule>)
    ensures |r| == 7
    ensures RuleFragments(r)
      == [ClassFragment(s.classes), MethodFragment(|KeptMethods(s.methodMatches)|)] + JavaFragments
    ensures RuleTags(r) == JavaTags
    ensures forall k :: 0 <= k < |r| ==> r[k].tag.Some?
  {
    JavaTagsPresent();
    Table([ClassFragment(s.classes), MethodFragment(|KeptMethods(s.methodMatches)|)] + JavaFragments, JavaTags)
  }

  /** Every sentence of the table carries a tag. */
  lemma JavaTagsPresent()
    ensures forall k :: 0 <= k < |JavaTags| ==> JavaTags[k].Some?
  {
  }

  function Fired(s: Scan): (r: seq<bool>)
    ensures |r| == 7
    ensures r[0] <==> s.classes != []
  {
    [s.classes != [], KeptMethods(s.methodMatches) != [], s.main, s.output, s.imports, s.conditional, s.loops]
  }

  /** The method sentence is produced exactly when some matched name is not excluded. */
  lemma MethodsFire(s: Scan)
    ensures Fired(s)[1] <==> exists n :: n in s.methodMatches && n !in ExcludedMethods
  {
    var kept := KeptMethods(s.methodMatches);
    assert kept != [] ==> kept[0] in kept;
  }

  const JavaFallback := "This Java code contains " + "basic programming structures" + "."
  const JavaSubject := "this Java code"
  const GenericFeature := "performs basic programming operations."

  /** `analyze_java`. The sentences found are joined by " " (or the fallback is used), the
      summary is the first sentence, and the tags make the user-friendly summary. */
  function AnalyzeJava(outcome: Detection<Scan>): (r: Envelope<Entry, Entry, Entry, Entry>)
    ensures r.language == "java"
    ensures r.variables == [] && r.imports == []
    ensures r.metadata.error <==> outcome.Crashed?
    ensures outcome.Detected? ==>
      && r.full == Join(SimpleParts(JavaTable(outcome.scan), Fired(outcome.scan), JavaFallback), " ")
      && Split(r.summary, r.details) == SentenceSplit(r.full, 1)
      && r.userFriendly == Some(FeatureSummary(JavaSubject, GenericFeature,
                                               FiredTags(JavaTable(outcome.scan), Fired(outcome.scan))))
      && Names(r.classes) == outcome.scan.classes
      && Names(r.functions) == KeptMethods(outcome.scan.methodMatches)
    ensures outcome.Crashed? ==>
      && IsErrorEnvelope(r) && r.userFriendly.None?
      && r.summary == "Java analysis error: " + outcome.message
      && r.full == "Error during analysis: " + outcome.message
  {
    match outcome
    case Detected(s) =>
      var full := Join(SimpleParts(JavaTable(s), Fired(s), JavaFallback), " ");
      var split := SentenceSplit(full, 1);
      var friendly := FeatureSummary(JavaSubject, GenericFeature, FiredTags(JavaTable(s), Fired(s)));
      Envelope(split.summary, Some(friendly), split.details, full,
               Described(KeptMethods(s.methodMatches), "method", "Method "),
               Described(s.classes, "class", "Class "), [], [], "java", RuleMetadata)
    case Crashed(msg) =>
      AnalysisError("Java analysis error: " + msg, None, "An error occurred while analyzing the Java code.", msg, "java")
  }

  /** Every sentence comes with exactly one feature tag, in the same order, and each tag is
      present exactly when its sentence was produced. */
  lemma JavaTagsFollowSentences(s: Scan)
    ensures |FiredTags(JavaTable(s), Fired(s))| == |FiredFragments(JavaTable(s), Fired(s))|
    ensures forall n :: 0 <= n < |FiredIndices(Fired(s))| ==>
      FiredTags(JavaTable(s), Fired(s))[n] == JavaTable(s)[FiredIndices(Fired(s))[n]].tag.value
    ensures forall k :: 0 <= k < 7 ==>
      (JavaTable(s)[k].tag.value in FiredTags(JavaTable(s), Fired(s)) <==> Fired(s)[k])
  {
    FiredTagsInOrder(JavaTable(s), Fired(s));
    JavaTagsDistinct(s);
    forall k | 0 <= k < 7
      ensures JavaTable(s)[k].tag.value in FiredTags(JavaTable(s), Fired(s)) <==> Fired(s)[k]
    {
      TagIffFired(JavaTable(s), Fired(s), k);
    }
  }

  lemma JavaTagsDistinct(s: Scan)
    ensures DistinctTags(JavaTable(s))
  {
    JavaTagTextsDistinct();
  }

  /** The tags differ in length, or else in their second letter. */
  lemma JavaTagTextsDistinct()
    ensures DistinctSome(JavaTags)
  {
    var t := JavaTags;
    assert |t[0].value| == 31 && |t[1].value| == 24 && |t[2].value| == 34 && |t[3].value| == 24;
    assert |t[4].value| == 28 && |t[5].value| == 35 && |t[6].value| == 33;
    assert t[1].value[1] != t[3].value[1];
  }

  /** With nothing found the explanation is the fallback sentence, which is also the whole
      summary, and the user-friendly summary is the generic one. */
  lemma JavaNothingFound(s: Scan)
    requires forall k :: 0 <= k < 7 ==> !Fired(s)[k]
    ensures AnalyzeJava(Detected(s)).full == JavaFallback
    ensures AnalyzeJava(Detected(s)).summary == JavaFallback && AnalyzeJava(Detected(s)).details == ""
    ensures AnalyzeJava(Detected(s)).userFriendly == Some("In simple terms, " + JavaSubject + " " + GenericFeature)
  {
    assert FiredFragments(JavaTable(s), Fired(s)) == [];
    NoTagsWhenUntagged(JavaTable(s), Fired(s));
    FallbackSentence();
    OneSentenceShape(JavaFallback);
    SentenceSplitFallsBack(JavaFallback, 1);
  }

  /** The fallback is one sentence: its only '.' is the last character. */
  lemma FallbackSentence()
    ensures OneSentence(JavaFallback)
  {
    DotFreeSentence("This Java code contains ", "basic programming structures");
  }

  /** With two or more sentences, the first being a single sentence, the summary is exactly
      that sentence and summary, a space and details give back the explanation. */
  lemma JavaLeadSentence(s: Scan)
    requires |FiredFragments(JavaTable(s), Fired(s))| >= 2
    requires OneSentence(FiredFragments(JavaTable(s), Fired(s))[0])
    ensures AnalyzeJava(Detected(s)).summary == FiredFragments(JavaTable(s), Fired(s))[0]
    ensures AnalyzeJava(Detected(s)).full == AnalyzeJava(Detected(s)).summary + " " + AnalyzeJava(Detected(s)).details
  {
    var parts := FiredFragments(JavaTable(s), Fired(s));
    assert SimpleParts(JavaTable(s), Fired(s), JavaFallback) == parts;
    OneSentenceShape(parts[0]);
    LeadSentence(parts);
  }
}
