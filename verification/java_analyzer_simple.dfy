/** The simple Java analyzer: seven fixed rules, a fallback sentence, the cutoff split. */
module JavaAnalyzerSimple {
  import opened Core
  import opened Text
  import opened Assembly
  import opened Envelopes
  import opened Rules

  /** Which of the seven patterns were found in the code. */
  datatype Scan = Scan(
    package: bool, imports: bool, classes: bool, main: bool,
    methods: bool, conditional: bool, loops: bool)

  const JavaSimpleRules := [
    Rule("This Java code belongs to a package.", None),
    Rule("This code imports Java libraries or classes.", None),
    Rule("This code defines Java classes.", None),
    Rule("This code contains a main method (entry point).", None),
    Rule("This code defines methods.", None),
    Rule("This code contains conditional logic.", None),
    Rule("This code contains loops.", None)]

  const JavaSimpleFallback := "This appears to be a simple Java code snippet."

  function Fired(s: Scan): (r: seq<bool>)
    ensures |r| == |JavaSimpleRules|
  {
    [s.package, s.imports, s.classes, s.main, s.methods, s.conditional, s.loops]
  }

  /** `analyze_java` of the simple variant. */
  function AnalyzeJava(outcome: Detection<Scan>): (r: Envelope<Entry, Entry, Entry, Entry>)
    ensures r.language == "java" && r.userFriendly.None?
    ensures r.functions == [] && r.classes == [] && r.variables == [] && r.imports == []
    ensures r.metadata.error <==> outcome.Crashed?
    ensures outcome.Detected? ==>
      && r.full == Join(SimpleParts(JavaSimpleRules, Fired(outcome.scan), JavaSimpleFallback), " ")
      && Split(r.summary, r.details) == CutoffSplit(r.full)
    ensures outcome.Crashed? ==>
      && r.summary == "Java analysis error: " + outcome.message
      && r.full == "Error during analysis: " + outcome.message
  {
    match outcome
    case Detected(s) => SimpleReport(JavaSimpleRules, Fired(s), JavaSimpleFallback, "java")
    case Crashed(msg) =>
      AnalysisError("Java analysis error: " + msg, None, "An error occurred while analyzing the Java code.", msg, "java")
  }

  /** Each rule's sentence appears exactly when its pattern was found, at most once. */
  lemma JavaSimpleRulesFire(s: Scan)
    ensures forall k :: 0 <= k < |JavaSimpleRules| ==>
      (JavaSimpleRules[k].fragment in FiredFragments(JavaSimpleRules, Fired(s)) <==> Fired(s)[k])
    ensures Distinct(FiredFragments(JavaSimpleRules, Fired(s)))
  {
    JavaSimpleFragmentsDistinct();
    forall k | 0 <= k < |JavaSimpleRules|
      ensures JavaSimpleRules[k].fragment in FiredFragments(JavaSimpleRules, Fired(s)) <==> Fired(s)[k]
    {
      FragmentIffFired(JavaSimpleRules, Fired(s), k);
    }
    FragmentIffFired(JavaSimpleRules, Fired(s), 0);
  }

  lemma JavaSimpleFragmentsDistinct()
    ensures Distinct(RuleFragments(JavaSimpleRules))
  {
    var t := RuleFragments(JavaSimpleRules);
    assert |t[0]| == 36 && |t[1]| == 44 && |t[2]| == 31 && |t[3]| == 47;
    assert |t[4]| == 26 && |t[5]| == 37 && |t[6]| == 25;
  }

  /** The explanation is never empty: with no pattern found it is the fallback sentence,
      which is short enough to be its own summary. */
  lemma JavaSimpleExplanation(s: Scan)
    ensures AnalyzeJava(Detected(s)).full != ""
    ensures (forall k :: 0 <= k < |Fired(s)| ==> !Fired(s)[k]) ==>
      && AnalyzeJava(Detected(s)).full == JavaSimpleFallback
      && AnalyzeJava(Detected(s)).summary == JavaSimpleFallback
      && AnalyzeJava(Detected(s)).details == ""
  {
    SimpleFullNonEmpty(JavaSimpleRules, Fired(s), JavaSimpleFallback);
    if forall k :: 0 <= k < |Fired(s)| ==> !Fired(s)[k] {
      SimpleFallback<Entry, Entry, Entry, Entry>(JavaSimpleRules, Fired(s), JavaSimpleFallback, "java");
    }
  }
}
