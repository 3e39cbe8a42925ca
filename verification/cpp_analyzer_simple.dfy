/** The simple C++ analyzer: eight fixed rules, a fallback sentence, the cutoff split. */
module CppAnalyzerSimple {
  import opened Core
  import opened Text
  import opened Assembly
  import opened Envelopes
  import opened Rules

  /** Which of the eight patterns were found in the code. */
  datatype Scan = Scan(
    headers: bool, namespace: bool, classOrStruct: bool, main: bool,
    functions: bool, conditional: bool, loops: bool, output: bool)

  const CppSimpleRules := [
    Rule("This C++ code includes header files.", None),
    Rule("This code uses the standard namespace.", None),
    Rule("This code defines classes or structures.", None),
    Rule("This code contains a main function (entry point).", None),
    Rule("This code defines functions.", None),
    Rule("This code contains conditional logic.", None),
    Rule("This code contains loops.", None),
    Rule("This code performs output operations.", None)]

  const CppSimpleFallback := "This appears to be a simple C++ code snippet."

  function Fired(s: Scan): (r: seq<bool>)
    ensures |r| == |CppSimpleRules|
  {
    [s.headers, s.namespace, s.classOrStruct, s.main, s.functions, s.conditional, s.loops, s.output]
  }

  /** `analyze_cpp` of the simple variant. */
  function AnalyzeCpp(outcome: Detection<Scan>): (r: Envelope<Entry, Entry, Entry, Entry>)
    ensures r.language == "c++" && r.userFriendly.None?
    ensures r.functions == [] && r.classes == [] && r.variables == [] && r.imports == []
    ensures r.metadata.error <==> outcome.Crashed?
    ensures outcome.Detected? ==>
      && r.full == Join(SimpleParts(CppSimpleRules, Fired(outcome.scan), CppSimpleFallback), " ")
      && Split(r.summary, r.details) == CutoffSplit(r.full)
    ensures outcome.Crashed? ==>
      && r.summary == "C++ analysis error: " + outcome.message
      && r.full == "Error during analysis: " + outcome.message
  {
    match outcome
    case Detected(s) => SimpleReport(CppSimpleRules, Fired(s), CppSimpleFallback, "c++")
    case Crashed(msg) =>
      AnalysisError("C++ analysis error: " + msg, None, "An error occurred while analyzing the C++ code.", msg, "c++")
  }

  /** Each rule's sentence appears exactly when its pattern was found, at most once. */
  lemma CppSimpleRulesFire(s: Scan)
    ensures forall k :: 0 <= k < |CppSimpleRules| ==>
      (CppSimpleRules[k].fragment in FiredFragments(CppSimpleRules, Fired(s)) <==> Fired(s)[k])
    ensures Distinct(FiredFragments(CppSimpleRules, Fired(s)))
  {
    CppSimpleFragmentsDistinct();
    forall k | 0 <= k < |CppSimpleRules|
      ensures CppSimpleRules[k].fragment in FiredFragments(CppSimpleRules, Fired(s)) <==> Fired(s)[k]
    {
      FragmentIffFired(CppSimpleRules, Fired(s), k);
    }
    FragmentIffFired(CppSimpleRules, Fired(s), 0);
  }

  lemma CppSimpleFragmentsDistinct()
    ensures Distinct(RuleFragments(CppSimpleRules))
  {
    var t := RuleFragments(CppSimpleRules);
    assert |t[0]| == 36 && |t[1]| == 38 && |t[2]| == 40 && |t[3]| == 49;
    assert |t[4]| == 28 && |t[5]| == 37 && |t[6]| == 25 && |t[7]| == 37;
    assert t[5][10] != t[7][10];
  }

  /** The explanation is never empty: with no pattern found it is the fallback sentence,
      which is short enough to be its own summary. */
  lemma CppSimpleExplanation(s: Scan)
    ensures AnalyzeCpp(Detected(s)).full != ""
    ensures (forall k :: 0 <= k < |Fired(s)| ==> !Fired(s)[k]) ==>
      && AnalyzeCpp(Detected(s)).full == CppSimpleFallback
      && AnalyzeCpp(Detected(s)).summary == CppSimpleFallback
      && AnalyzeCpp(Detected(s)).details == ""
  {
    SimpleFullNonEmpty(CppSimpleRules, Fired(s), CppSimpleFallback);
    if forall k :: 0 <= k < |Fired(s)| ==> !Fired(s)[k] {
      SimpleFallback<Entry, Entry, Entry, Entry>(CppSimpleRules, Fired(s), CppSimpleFallback, "c++");
    }
  }
}
