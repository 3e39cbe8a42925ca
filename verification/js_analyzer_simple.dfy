/** The simple JavaScript analyzer: six fixed rules, a fallback sentence, the cutoff split. */
module JsAnalyzerSimple {
  import opened Core
  import opened Text
  import opened Assembly
  import opened Envelopes
  import opened Rules

  /** Which of the six patterns were found in the code. */
  datatype Scan = Scan(
    functions: bool, classes: bool, imports: bool,
    variables: bool, conditional: bool, loops: bool)

  const JsSimpleRules := [
    Rule("This JavaScript code contains function definitions.", None),
    Rule("This code defines classes.", None),
    Rule("This code imports modules or dependencies.", None),
    Rule("This code declares variables.", None),
    Rule("This code contains conditional logic.", None),
    Rule("This code contains loops or iterations.", None)]

  const JsSimpleFallback := "This appears to be a simple JavaScript code snippet."

  function Fired(s: Scan): (r: seq<bool>)
    ensures |r| == |JsSimpleRules|
  {
    [s.functions, s.classes, s.imports, s.variables, s.conditional, s.loops]
  }

  /** `analyze_javascript` of the simple variant. */
  function AnalyzeJavascript(outcome: Detection<Scan>): (r: Envelope<Entry, Entry, Entry, Entry>)
    ensures r.language == "javascript" && r.userFriendly.None?
    ensures r.functions == [] && r.classes == [] && r.variables == [] && r.imports == []
    ensures r.metadata.error <==> outcome.Crashed?
    ensures outcome.Detected? ==>
      && r.full == Join(SimpleParts(JsSimpleRules, Fired(outcome.scan), JsSimpleFallback), " ")
      && Split(r.summary, r.details) == CutoffSplit(r.full)
    ensures outcome.Crashed? ==>
      && r.summary == "JavaScript analysis error: " + outcome.message
      && r.full == "Error during analysis: " + outcome.message
  {
    match outcome
    case Detected(s) => SimpleReport(JsSimpleRules, Fired(s), JsSimpleFallback, "javascript")
    case Crashed(msg) =>
      AnalysisError("JavaScript analysis error: " + msg, None,
                    "An error occurred while analyzing the JavaScript code.", msg, "javascript")
  }

  /** Each rule's sentence appears exactly when its pattern was found, at most once. */
  lemma JsSimpleRulesFire(s: Scan)
    ensures forall k :: 0 <= k < |JsSimpleRules| ==>
      (JsSimpleRules[k].fragment in FiredFragments(JsSimpleRules, Fired(s)) <==> Fired(s)[k])
    ensures Distinct(FiredFragments(JsSimpleRules, Fired(s)))
  {
    JsSimpleFragmentsDistinct();
    forall k | 0 <= k < |JsSimpleRules|
      ensures JsSimpleRules[k].fragment in FiredFragments(JsSimpleRules, Fired(s)) <==> Fired(s)[k]
    {
      FragmentIffFired(JsSimpleRules, Fired(s), k);
    }
    FragmentIffFired(JsSimpleRules, Fired(s), 0);
  }

  lemma JsSimpleFragmentsDistinct()
    ensures Distinct(RuleFragments(JsSimpleRules))
  {
    var t := RuleFragments(JsSimpleRules);
    assert |t[0]| == 51 && |t[1]| == 26 && |t[2]| == 42;
    assert |t[3]| == 29 && |t[4]| == 37 && |t[5]| == 39;
  }

  /** The explanation is never empty: with no pattern found it is the fallback sentence,
      which is short enough to be its own summary. */
  lemma JsSimpleExplanation(s: Scan)
    ensures AnalyzeJavascript(Detected(s)).full != ""
    ensures (forall k :: 0 <= k < |Fired(s)| ==> !Fired(s)[k]) ==>
      && AnalyzeJavascript(Detected(s)).full == JsSimpleFallback
      && AnalyzeJavascript(Detected(s)).summary == JsSimpleFallback
      && AnalyzeJavascript(Detected(s)).details == ""
  {
    SimpleFullNonEmpty(JsSimpleRules, Fired(s), JsSimpleFallback);
    if forall k :: 0 <= k < |Fired(s)| ==> !Fired(s)[k] {
      SimpleFallback<Entry, Entry, Entry, Entry>(JsSimpleRules, Fired(s), JsSimpleFallback, "javascript");
    }
  }
}
